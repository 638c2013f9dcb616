/**
 * Deletion and export: the maintenance operations of the RAG client build a
 * filter step by step and either hand it to the store's filtered delete or
 * page through the matching records with `scroll`. A failure of the store
 * is caught and logged by the client; for a delete that means the store is
 * left as it was, for an export that the records collected so far are
 * returned.
 */
module Retention {
  import opened Wrappers
  import opened Records
  import opened Filters
  import opened Store

  /** `delete_user`: every point whose author is `userId` goes. */
  method DeleteUser(store: VectorStore, userId: int)
    modifies store
    ensures store.points == Kept(old(store.points), Some(UserFilter(userId)))
    ensures forall id :: id in store.points ==> store.points[id].payload.authorId != userId
  {
    var must := [Match(AuthorId, userId)];
    store.Delete(Some(Filter(must, [])));
  }

  /** `delete_messages_by_ids`: nothing for an empty id list; otherwise the
      points whose message id is listed, restricted to the author when one is
      given. */
  method DeleteMessagesByIds(store: VectorStore, messageIds: seq<int>, authorId: Option<int>)
    modifies store
    ensures messageIds == [] ==> store.points == old(store.points)
    ensures messageIds != [] ==> store.points == Kept(old(store.points), IdsFilter(messageIds, authorId))
    ensures forall id :: id in old(store.points) && id !in store.points ==>
      old(store.points)[id].payload.messageId in messageIds &&
      (authorId.Some? ==> old(store.points)[id].payload.authorId == authorId.value)
  {
    if messageIds == [] {
      return;
    }
    var should := seq(|messageIds|, i requires 0 <= i < |messageIds| => Match(MessageId, messageIds[i]));
    var must: seq<Condition> := [];
    if authorId.Some? {
      must := must + [Match(AuthorId, authorId.value)];
      assert must == [Match(AuthorId, authorId.value)];
    }
    var flt := Filter(must, should);
    assert Some(flt) == IdsFilter(messageIds, authorId);
    store.Delete(Some(flt));
  }

  /** `delete_older_than(days, guild_id)` with the clock reading `nowTs`:
      nothing for zero days; otherwise every point created at or before
      `days` whole days ago, within the guild when a truthy guild is given. */
  method DeleteOlderThan(store: VectorStore, days: int, guildId: Option<int>, nowTs: int)
    modifies store
    ensures days == 0 ==> store.points == old(store.points)
    ensures days != 0 ==> store.points == Kept(old(store.points), RetentionFilter(days, guildId, nowTs))
    ensures forall id :: id in old(store.points) && id !in store.points ==>
      old(store.points)[id].payload.createdAtTs <= Cutoff(nowTs, days) &&
      (Truthy(guildId) ==> old(store.points)[id].payload.guildId == guildId.value)
  {
    if days == 0 {
      return;
    }
    var cutoff := nowTs - days * 86400;
    var must := [InRange(CreatedAtTs, None, Some(cutoff))];
    if Truthy(guildId) {
      must := must + [Match(GuildId, guildId.value)];
    }
    store.Delete(Some(Filter(must, [])));
  }

  /** The `must` list `delete_filtered` and `export_all` build, one append per
      supplied field. */
  method BuildScope(guildId: Option<int>, userId: Option<int>, channelId: Option<int>,
                    beforeTs: Option<int>, afterTs: Option<int>) returns (flt: Option<Filter>)
    ensures flt == ScopedFilter(guildId, userId, channelId, beforeTs, afterTs)
  {
    var must: seq<Condition> := [];
    if guildId.Some? {
      must := must + [Match(GuildId, guildId.value)];
    }
    assert must == OptMatch(GuildId, guildId);
    if userId.Some? {
      must := must + [Match(AuthorId, userId.value)];
    }
    assert must == OptMatch(GuildId, guildId) + OptMatch(AuthorId, userId);
    if channelId.Some? {
      must := must + [Match(ChannelId, channelId.value)];
    }
    assert must == OptMatch(GuildId, guildId) + OptMatch(AuthorId, userId) + OptMatch(ChannelId, channelId);
    if beforeTs.Some? || afterTs.Some? {
      var gte: Option<int> := None;
      var lte: Option<int> := None;
      if afterTs.Some? {
        gte := Some(afterTs.value);
      }
      if beforeTs.Some? {
        lte := Some(beforeTs.value);
      }
      assert gte == afterTs && lte == beforeTs;
      must := must + [InRange(CreatedAtTs, gte, lte)];
    }
    assert must == ScopeConditions(guildId, userId, channelId, beforeTs, afterTs);
    flt := if must != [] then Some(Filter(must, [])) else None;
  }

  /** `delete_filtered`: removes exactly the points inside the scope and the
      time window; with nothing supplied the selector has no filter and the
      whole collection goes. */
  method DeleteFiltered(store: VectorStore, guildId: Option<int>, userId: Option<int>, channelId: Option<int>,
                        beforeTs: Option<int>, afterTs: Option<int>)
    modifies store
    ensures store.points == Kept(old(store.points), ScopedFilter(guildId, userId, channelId, beforeTs, afterTs))
    ensures forall id :: id in old(store.points) ==>
      (id in store.points <==> !(InScope(old(store.points)[id].payload, guildId, userId, channelId) &&
                                 InWindow(old(store.points)[id].payload, beforeTs, afterTs)))
  {
    var flt := BuildScope(guildId, userId, channelId, beforeTs, afterTs);
    store.Delete(flt);
  }

  /** One answer of `scroll`: a page of payloads, or a failure of the store. */
  datatype Page = Page(records: seq<Payload>) | ScrollFailed

  /** What the exports collect when the store answers page `i` of `pages` to
      the `i`-th scroll (the page token is the index of the next page, and the
      last page carries none; an empty store answers one empty page): every
      page's records in order, up to the first failure. */
  function Drain(pages: seq<Page>): seq<Payload> {
    if pages == [] then []
    else if pages[0].ScrollFailed? then []
    else pages[0].records + Drain(pages[1..])
  }

  /** Every record of every page that did not fail, in order. */
  function AllRecords(pages: seq<Page>): seq<Payload> {
    if pages == [] then []
    else (if pages[0].ScrollFailed? then [] else pages[0].records) + AllRecords(pages[1..])
  }

  /** The answer to the scroll for page `i`. */
  function ScrollAt(pages: seq<Page>, i: nat): Page {
    if i < |pages| then pages[i] else Page([])
  }

  /** The `while True` scroll loop of `export_user` and `export_all`. */
  method DrainPages(pages: seq<Page>) returns (records: seq<Payload>)
    ensures records == Drain(pages)
  {
    records := [];
    var offset := 0;
    while true
      invariant offset <= |pages| || (pages == [] && offset == 0)
      invariant offset < |pages| || pages == []
      invariant records + Drain(pages[offset..]) == Drain(pages)
      decreases |pages| - offset
    {
      var page := ScrollAt(pages, offset);
      if page.ScrollFailed? {
        assert Drain(pages[offset..]) == [];
        assert records + [] == records;
        break;
      }
      records := records + page.records;
      if offset + 1 >= |pages| {
        assert pages == [] || pages[offset..][1..] == [];
        assert records == Drain(pages);
        break;
      }
      assert pages[offset..][1..] == pages[offset + 1..];
      offset := offset + 1;
    }
  }

  /** `export_user`: the records of one author in one guild. */
  method ExportUser(pages: seq<Page>, guildId: int, authorId: int)
    returns (flt: Filter, records: seq<Payload>)
    ensures forall p :: Matches(flt, p) <==> p.guildId == guildId && p.authorId == authorId
    ensures records == Drain(pages)
  {
    flt := Filter([Match(GuildId, guildId), Match(AuthorId, authorId)], []);
    assert flt == GuildUserFilter(guildId, authorId);
    records := DrainPages(pages);
  }

  /** `export_all`: the records inside the given scope, or every record when
      no field is given. */
  method ExportAll(pages: seq<Page>, guildId: Option<int>, userId: Option<int>, channelId: Option<int>)
    returns (flt: Option<Filter>, records: seq<Payload>)
    ensures flt == ScopedFilter(guildId, userId, channelId, None, None)
    ensures flt.None? <==> guildId.None? && userId.None? && channelId.None?
    ensures records == Drain(pages)
  {
    flt := BuildScope(guildId, userId, channelId, None, None);
    records := DrainPages(pages);
  }

  /** The exported records are a prefix of everything the store would page
      out, and all of it when no scroll fails. */
  lemma {:induction false} DrainIsPrefix(pages: seq<Page>)
    ensures |Drain(pages)| <= |AllRecords(pages)|
    ensures Drain(pages) == AllRecords(pages)[..|Drain(pages)|]
    ensures (forall i :: 0 <= i < |pages| ==> pages[i].Page?) ==> Drain(pages) == AllRecords(pages)
  {
    if pages != [] && pages[0].Page? {
      DrainIsPrefix(pages[1..]);
      var r := pages[0].records;
      assert (r + AllRecords(pages[1..]))[..|r| + |Drain(pages[1..])|] == r + AllRecords(pages[1..])[..|Drain(pages[1..])|];
      if forall i :: 0 <= i < |pages| ==> pages[i].Page? {
        assert forall i :: 0 <= i < |pages[1..]| ==> pages[1..][i].Page? by {
          forall i | 0 <= i < |pages[1..]| ensures pages[1..][i].Page? { assert pages[1..][i] == pages[i + 1]; }
        }
      }
    }
  }

  /** When every page the store answers holds only records the filter
      selects, so does the export. */
  lemma {:induction false} DrainMatches(pages: seq<Page>, f: Option<Filter>)
    requires forall i, j :: 0 <= i < |pages| && pages[i].Page? && 0 <= j < |pages[i].records| ==>
      Selects(f, pages[i].records[j])
    ensures forall j :: 0 <= j < |Drain(pages)| ==> Selects(f, Drain(pages)[j])
  {
    if pages != [] && pages[0].Page? {
      assert forall i, j :: 0 <= i < |pages[1..]| && pages[1..][i].Page? && 0 <= j < |pages[1..][i].records| ==>
        Selects(f, pages[1..][i].records[j]) by {
        forall i, j | 0 <= i < |pages[1..]| && pages[1..][i].Page? && 0 <= j < |pages[1..][i].records|
          ensures Selects(f, pages[1..][i].records[j]) { assert pages[1..][i] == pages[i + 1]; }
      }
      DrainMatches(pages[1..], f);
      var r := pages[0].records;
      forall j | 0 <= j < |Drain(pages)| ensures Selects(f, Drain(pages)[j]) {
        if j < |r| { assert Drain(pages)[j] == pages[0].records[j]; }
        else { assert Drain(pages)[j] == Drain(pages[1..])[j - |r|]; }
      }
    }
  }
}
