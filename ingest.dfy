/**
 * `ingest_messages`: keep the non-bot messages that have text other than
 * whitespace and custom emoji, chunk each one, give every chunk a payload
 * keyed by the hash of its normalised text, merge the payloads that share a
 * hash, and upsert one point per distinct hash.
 *
 * The hash and the embedding are parameters (`fingerprint` stands for
 * SHA-256 of the UTF-8 text, `encode` for the sentence embedder), and so is
 * the clock: `builtAt` is the time every payload is stamped with and
 * `mergedAt` the time a merge writes into `lastSeen`.
 */
module Ingest {
  import opened Wrappers
  import opened Text
  import opened Chunking
  import opened Emote
  import opened Records
  import opened Store

  /** The content hash of a chunk: the fingerprint of its normalised text.
      The payload functions below take this composite as `hashOf`. */
  function ContentHash(fingerprint: string -> string): string -> string {
    s => fingerprint(Normalize(s))
  }

  /** Two chunks with the same normalised text get the same content hash,
      hence the same point id. */
  lemma SameTextSameHash(fingerprint: string -> string, a: string, b: string)
    requires Normalize(a) == Normalize(b)
    ensures ContentHash(fingerprint)(a) == ContentHash(fingerprint)(b)
  {
  }

  /** The content hash does not change when the text is normalised first. */
  lemma HashOfNormalized(fingerprint: string -> string, s: string)
    ensures ContentHash(fingerprint)(Normalize(s)) == ContentHash(fingerprint)(s)
  {
    NormalizeIdempotent(s);
  }

  /** The messages the ingest loop passes over. */
  predicate Skipped(m: Message) {
    m.authorIsBot || IsBlank(m.content) || IsEmoteOnly(m.content)
  }

  /** The payload built for one chunk of message `m`. */
  function ChunkPayload(m: Message, source: string, chunk: string,
                        hashOf: string -> string, now: string): Payload {
    Payload(m.guildId, m.channelId, m.authorName, m.authorId, m.id, m.createdAt, m.createdAtTs,
            source, chunk, hashOf(chunk), now, now, {source})
  }

  function ChunkPayloads(m: Message, source: string, cs: seq<string>,
                         hashOf: string -> string, now: string): seq<Payload> {
    seq(|cs|, k requires 0 <= k < |cs| => ChunkPayload(m, source, cs[k], hashOf, now))
  }

  /** The payloads one message contributes. */
  function MessagePayloads(m: Message, source: string, hashOf: string -> string, now: string): seq<Payload> {
    if Skipped(m) then []
    else ChunkPayloads(m, source, ChunkSpec(m.content, DefaultMaxChars, DefaultOverlap), hashOf, now)
  }

  /** The payload list the first loop builds, message by message. */
  function BatchPayloads(ms: seq<Message>, source: string, hashOf: string -> string, now: string): seq<Payload>
    decreases |ms|
  {
    if ms == [] then []
    else BatchPayloads(ms[..|ms| - 1], source, hashOf, now) + MessagePayloads(ms[|ms| - 1], source, hashOf, now)
  }

  /** One step of the merge loop: a new hash is stored as it is; a known one
      gets the union of the sources and `lastSeen := now`. */
  function Merge(unique: map<string, Payload>, p: Payload, now: string): map<string, Payload> {
    var h := p.contentHash;
    if h in unique then unique[h := unique[h].(sources := unique[h].sources + p.sources, lastSeen := now)]
    else unique[h := p]
  }

  /** The `unique` dictionary after the merge loop. */
  function Dedup(ps: seq<Payload>, now: string): map<string, Payload>
    decreases |ps|
  {
    if ps == [] then map[] else Merge(Dedup(ps[..|ps| - 1], now), ps[|ps| - 1], now)
  }

  /** The distinct content hashes of a payload list. */
  function Hashes(ps: seq<Payload>): set<string> {
    set i | 0 <= i < |ps| :: ps[i].contentHash
  }

  /** How many payloads carry hash `h`. */
  function Occurrences(ps: seq<Payload>, h: string): nat
    decreases |ps|
  {
    if ps == [] then 0
    else Occurrences(ps[..|ps| - 1], h) + (if ps[|ps| - 1].contentHash == h then 1 else 0)
  }

  /** The union of the sources of the payloads that carry hash `h`. */
  function SourcesWith(ps: seq<Payload>, h: string): set<string>
    decreases |ps|
  {
    if ps == [] then {}
    else SourcesWith(ps[..|ps| - 1], h) + (if ps[|ps| - 1].contentHash == h then ps[|ps| - 1].sources else {})
  }

  /** `i` is the first payload with hash `h`. */
  predicate FirstWith(ps: seq<Payload>, h: string, i: int) {
    0 <= i < |ps| && ps[i].contentHash == h && forall j :: 0 <= j < i ==> ps[j].contentHash != h
  }

  /** `i` is the last payload with hash `h`. */
  predicate LastWith(ps: seq<Payload>, h: string, i: int) {
    0 <= i < |ps| && ps[i].contentHash == h && forall j :: i < j < |ps| ==> ps[j].contentHash != h
  }

  /** A payload without the two fields the merge rewrites. */
  function Meta(p: Payload): Payload {
    p.(sources := {}, lastSeen := "")
  }

  lemma HashesInit(ps: seq<Payload>)
    requires ps != []
    ensures Hashes(ps) == Hashes(ps[..|ps| - 1]) + {ps[|ps| - 1].contentHash}
  {
    var init := ps[..|ps| - 1];
    forall h | h in Hashes(ps) ensures h in Hashes(init) + {ps[|ps| - 1].contentHash} {
      var i :| 0 <= i < |ps| && ps[i].contentHash == h;
      if i < |ps| - 1 { assert init[i] == ps[i]; }
    }
    forall h | h in Hashes(init) ensures h in Hashes(ps) {
      var i :| 0 <= i < |init| && init[i].contentHash == h;
      assert ps[i] == init[i];
    }
  }

  /** The merged dictionary has one entry per distinct hash, stored under its
      own hash. */
  lemma {:induction false} DedupKeys(ps: seq<Payload>, now: string)
    ensures Dedup(ps, now).Keys == Hashes(ps)
    ensures forall h :: h in Dedup(ps, now) ==> Dedup(ps, now)[h].contentHash == h
    decreases |ps|
  {
    if ps != [] {
      DedupKeys(ps[..|ps| - 1], now);
      HashesInit(ps);
    }
  }

  /** So the number of points is the number of distinct hashes. */
  lemma DedupCount(ps: seq<Payload>, now: string)
    ensures |Dedup(ps, now)| == |Hashes(ps)|
  {
    DedupKeys(ps, now);
    assert |Dedup(ps, now)| == |Dedup(ps, now).Keys|;
  }

  lemma {:induction false} AbsentHash(ps: seq<Payload>, h: string)
    requires h !in Hashes(ps)
    ensures Occurrences(ps, h) == 0 && SourcesWith(ps, h) == {}
    decreases |ps|
  {
    if ps != [] {
      HashesInit(ps);
      AbsentHash(ps[..|ps| - 1], h);
    }
  }

  lemma {:induction false} PresentHash(ps: seq<Payload>, h: string, i: int)
    requires 0 <= i < |ps| && ps[i].contentHash == h
    ensures Occurrences(ps, h) >= 1
    decreases |ps|
  {
    if i < |ps| - 1 {
      assert ps[..|ps| - 1][i] == ps[i];
      PresentHash(ps[..|ps| - 1], h, i);
    }
  }

  /** The merged entry for `h` is the first payload with that hash, except
      that its sources are the union over every payload with the hash and its
      `lastSeen` is the merge time exactly when the hash occurs more than once. */
  lemma {:induction false} DedupEntry(ps: seq<Payload>, now: string, h: string, i: int)
    requires FirstWith(ps, h, i)
    ensures h in Dedup(ps, now)
    ensures Meta(Dedup(ps, now)[h]) == Meta(ps[i])
    ensures Dedup(ps, now)[h].sources == SourcesWith(ps, h)
    ensures Dedup(ps, now)[h].lastSeen == (if Occurrences(ps, h) == 1 then ps[i].lastSeen else now)
    decreases |ps|
  {
    var n := |ps|;
    var init := ps[..n - 1];
    DedupKeys(init, now);
    if i == n - 1 {
      assert h !in Hashes(init) by {
        forall j | 0 <= j < |init| ensures init[j].contentHash != h { assert init[j] == ps[j]; }
      }
      AbsentHash(init, h);
    } else {
      assert FirstWith(init, h, i) by {
        forall j | 0 <= j < i ensures init[j].contentHash != h { assert init[j] == ps[j]; }
        assert init[i] == ps[i];
      }
      DedupEntry(init, now, h, i);
      PresentHash(init, h, i);
    }
  }

  /** `{pld["content_hash"]: v for v, pld in zip(vectors, payloads)}`: a later
      payload with the same hash overwrites the vector of an earlier one. */
  function VectorsMap(ps: seq<Payload>, vs: seq<Vector>): map<string, Vector>
    requires |vs| == |ps|
    decreases |ps|
  {
    if ps == [] then map[]
    else VectorsMap(ps[..|ps| - 1], vs[..|vs| - 1])[ps[|ps| - 1].contentHash := vs[|vs| - 1]]
  }

  lemma {:induction false} VectorsKeys(ps: seq<Payload>, vs: seq<Vector>)
    requires |vs| == |ps|
    ensures VectorsMap(ps, vs).Keys == Hashes(ps)
    decreases |ps|
  {
    if ps != [] {
      VectorsKeys(ps[..|ps| - 1], vs[..|vs| - 1]);
      HashesInit(ps);
    }
  }

  /** The vector stored for `h` is the one computed for the last payload with
      that hash. */
  lemma {:induction false} VectorOfLast(ps: seq<Payload>, vs: seq<Vector>, h: string, i: int)
    requires |vs| == |ps|
    requires LastWith(ps, h, i)
    ensures h in VectorsMap(ps, vs) && VectorsMap(ps, vs)[h] == vs[i]
    decreases |ps|
  {
    var n := |ps|;
    if i < n - 1 {
      var init := ps[..n - 1];
      assert LastWith(init, h, i) by {
        forall j | i < j < |init| ensures init[j].contentHash != h { assert init[j] == ps[j]; }
        assert init[i] == ps[i];
      }
      VectorOfLast(init, vs[..n - 1], h, i);
      assert vs[..n - 1][i] == vs[i];
    }
  }

  /** The vectors computed for the payload texts, in order. */
  function Embed(ps: seq<Payload>, encode: string -> Vector): (vs: seq<Vector>)
    ensures |vs| == |ps|
  {
    seq(|ps|, k requires 0 <= k < |ps| => encode(ps[k].text))
  }

  /** The points upserted for payload list `ps`: one per distinct hash. */
  function PointsOf(ps: seq<Payload>, encode: string -> Vector, now: string): map<string, Point> {
    var unique := Dedup(ps, now);
    var vectors := VectorsMap(ps, Embed(ps, encode));
    DedupKeys(ps, now);
    VectorsKeys(ps, Embed(ps, encode));
    map h | h in unique :: Point(h, vectors[h], unique[h])
  }

  /** Every point id is the content hash of its payload's text, so a chunk's
      id depends on nothing but that text (see `SameTextSameHash`). */
  lemma PointIds(ms: seq<Message>, source: string, hashOf: string -> string, encode: string -> Vector,
                 builtAt: string, mergedAt: string)
    ensures var ps := BatchPayloads(ms, source, hashOf, builtAt);
      && PointsOf(ps, encode, mergedAt).Keys == Hashes(ps)
      && forall h :: h in PointsOf(ps, encode, mergedAt) ==>
           var pt := PointsOf(ps, encode, mergedAt)[h];
           pt.id == h && h == hashOf(pt.payload.text)
  {
    var ps := BatchPayloads(ms, source, hashOf, builtAt);
    BatchHashes(ms, source, hashOf, builtAt);
    DedupKeys(ps, mergedAt);
    forall h | h in Dedup(ps, mergedAt)
      ensures h == hashOf(Dedup(ps, mergedAt)[h].text)
    {
      var i := FirstIndex(ps, h);
      DedupEntry(ps, mergedAt, h, i);
      assert Dedup(ps, mergedAt)[h].text == Meta(ps[i]).text;
    }
  }

  /** The index of the first payload with hash `h`. */
  function FirstIndex(ps: seq<Payload>, h: string): (i: int)
    requires h in Hashes(ps)
    ensures FirstWith(ps, h, i)
    decreases |ps|
  {
    if ps[0].contentHash == h then 0
    else
      assert h in Hashes(ps[1..]) by {
        var j :| 0 <= j < |ps| && ps[j].contentHash == h;
        assert ps[1..][j - 1] == ps[j];
      }
      var j := FirstIndex(ps[1..], h);
      assert forall k :: 1 <= k <= j ==> ps[k] == ps[1..][k - 1];
      1 + j
  }

  /** Every payload of the batch carries the content hash of its own text, comes from `source` alone, and holds a chunk of at most
      `DefaultMaxChars` characters. */
  predicate WellFormed(p: Payload, source: string, hashOf: string -> string) {
    && p.contentHash == hashOf(p.text)
    && p.source == source && p.sources == {source}
    && |p.text| <= DefaultMaxChars
  }

  lemma MessageWellFormed(m: Message, source: string, hashOf: string -> string, now: string)
    ensures forall k :: 0 <= k < |MessagePayloads(m, source, hashOf, now)| ==>
      WellFormed(MessagePayloads(m, source, hashOf, now)[k], source, hashOf)
  {
    if !Skipped(m) {
      ChunksBounded(m.content, DefaultMaxChars, DefaultOverlap);
    }
  }

  lemma {:induction false} BatchHashes(ms: seq<Message>, source: string, hashOf: string -> string, now: string)
    ensures forall k :: 0 <= k < |BatchPayloads(ms, source, hashOf, now)| ==>
      WellFormed(BatchPayloads(ms, source, hashOf, now)[k], source, hashOf)
    decreases |ms|
  {
    if ms != [] {
      var m := ms[|ms| - 1];
      var a, b := BatchPayloads(ms[..|ms| - 1], source, hashOf, now), MessagePayloads(m, source, hashOf, now);
      BatchHashes(ms[..|ms| - 1], source, hashOf, now);
      MessageWellFormed(m, source, hashOf, now);
      assert BatchPayloads(ms, source, hashOf, now) == a + b;
      ConcatWellFormed(a, b, source, hashOf);
    }
  }

  lemma ConcatWellFormed(a: seq<Payload>, b: seq<Payload>, source: string, hashOf: string -> string)
    requires forall k :: 0 <= k < |a| ==> WellFormed(a[k], source, hashOf)
    requires forall k :: 0 <= k < |b| ==> WellFormed(b[k], source, hashOf)
    ensures forall k :: 0 <= k < |a + b| ==> WellFormed((a + b)[k], source, hashOf)
  {
    forall k | 0 <= k < |a + b| ensures WellFormed((a + b)[k], source, hashOf) {
      if k < |a| { assert (a + b)[k] == a[k]; } else { assert (a + b)[k] == b[k - |a|]; }
    }
  }

  /** Early exit: the batch yields no payload (and nothing is upserted)
      exactly when every message is skipped. */
  lemma {:induction false} EmptyBatch(ms: seq<Message>, source: string, hashOf: string -> string, now: string)
    ensures BatchPayloads(ms, source, hashOf, now) == [] <==> forall i :: 0 <= i < |ms| ==> Skipped(ms[i])
    decreases |ms|
  {
    if ms != [] {
      var init := ms[..|ms| - 1];
      EmptyBatch(init, source, hashOf, now);
      var m := ms[|ms| - 1];
      if !Skipped(m) {
        ChunksBounded(m.content, DefaultMaxChars, DefaultOverlap);
      }
      assert forall i :: 0 <= i < |init| ==> init[i] == ms[i];
    }
  }

  /** Within one batch every stored point names the batch's origin and lists
      exactly that one source: payloads are never merged across origins here. */
  lemma SingleSource(ms: seq<Message>, source: string, hashOf: string -> string, encode: string -> Vector,
                     builtAt: string, mergedAt: string)
    ensures var pts := PointsOf(BatchPayloads(ms, source, hashOf, builtAt), encode, mergedAt);
      forall h :: h in pts ==> pts[h].payload.sources == {source} && pts[h].payload.source == source
  {
    var ps := BatchPayloads(ms, source, hashOf, builtAt);
    BatchHashes(ms, source, hashOf, builtAt);
    DedupKeys(ps, mergedAt);
    forall h | h in Dedup(ps, mergedAt)
      ensures Dedup(ps, mergedAt)[h].sources == {source} && Dedup(ps, mergedAt)[h].source == source
    {
      var i := FirstIndex(ps, h);
      DedupEntry(ps, mergedAt, h, i);
      assert Meta(Dedup(ps, mergedAt)[h]).source == Meta(ps[i]).source;
      SourcesAll(ps, h, source, hashOf);
    }
  }

  lemma {:induction false} SourcesAll(ps: seq<Payload>, h: string, source: string, hashOf: string -> string)
    requires h in Hashes(ps)
    requires forall k :: 0 <= k < |ps| ==> WellFormed(ps[k], source, hashOf)
    ensures SourcesWith(ps, h) == {source}
    decreases |ps|
  {
    var init := ps[..|ps| - 1];
    HashesInit(ps);
    assert forall k :: 0 <= k < |init| ==> init[k] == ps[k];
    if h in Hashes(init) {
      SourcesAll(init, h, source, hashOf);
    } else {
      AbsentHash(init, h);
    }
  }

  /** Re-ingesting a text from another source overwrites the stored point:
      the old sources are not carried over, the point lists only the new one. */
  lemma ReingestReplacesSources(stored: map<string, Point>, ms: seq<Message>, source: string,
                                hashOf: string -> string, encode: string -> Vector,
                                builtAt: string, mergedAt: string, h: string)
    requires h in PointsOf(BatchPayloads(ms, source, hashOf, builtAt), encode, mergedAt)
    ensures (stored + PointsOf(BatchPayloads(ms, source, hashOf, builtAt), encode, mergedAt))[h].payload.sources == {source}
  {
    SingleSource(ms, source, hashOf, encode, builtAt, mergedAt);
  }

  /** The first loop of `ingest_messages`: the texts and payloads of every
      chunk of every kept message, in order. */
  method BuildPayloads(messages: seq<Message>, source: string, fingerprint: string -> string, builtAt: string)
    returns (texts: seq<string>, payloads: seq<Payload>)
    ensures payloads == BatchPayloads(messages, source, ContentHash(fingerprint), builtAt)
    ensures |texts| == |payloads| && forall k :: 0 <= k < |texts| ==> texts[k] == payloads[k].text
  {
    texts, payloads := [], [];
    for i := 0 to |messages|
      invariant payloads == BatchPayloads(messages[..i], source, ContentHash(fingerprint), builtAt)
      invariant |texts| == |payloads| && forall k :: 0 <= k < |texts| ==> texts[k] == payloads[k].text
    {
      var msg := messages[i];
      BatchSnoc(messages, i, source, ContentHash(fingerprint), builtAt);
      if msg.authorIsBot {
        continue;
      }
      var content := msg.content;
      if IsBlank(content) || IsEmoteOnly(content) {
        continue;
      }
      var chunks := Chunk(content, DefaultMaxChars, DefaultOverlap);
      var chunkTexts, chunkPayloads := PayloadsForChunks(msg, source, chunks, fingerprint, builtAt);
      assert chunkPayloads == MessagePayloads(msg, source, ContentHash(fingerprint), builtAt);
      AppendParallel(texts, payloads, chunkTexts, chunkPayloads);
      texts, payloads := texts + chunkTexts, payloads + chunkPayloads;
    }
    assert messages[..|messages|] == messages;
  }

  lemma BatchSnoc(ms: seq<Message>, i: nat, source: string, hashOf: string -> string, now: string)
    requires i < |ms|
    ensures BatchPayloads(ms[..i + 1], source, hashOf, now)
         == BatchPayloads(ms[..i], source, hashOf, now) + MessagePayloads(ms[i], source, hashOf, now)
  {
    assert ms[..i + 1][..i] == ms[..i];
  }

  lemma AppendParallel(texts: seq<string>, payloads: seq<Payload>, ts: seq<string>, ps: seq<Payload>)
    requires |texts| == |payloads| && forall k :: 0 <= k < |texts| ==> texts[k] == payloads[k].text
    requires ts == seq(|ps|, k requires 0 <= k < |ps| => ps[k].text)
    ensures |texts + ts| == |payloads + ps|
    ensures forall k :: 0 <= k < |texts + ts| ==> (texts + ts)[k] == (payloads + ps)[k].text
  {
    forall k | 0 <= k < |texts + ts| ensures (texts + ts)[k] == (payloads + ps)[k].text {
      if k >= |texts| {
        assert (texts + ts)[k] == ts[k - |texts|];
        assert (payloads + ps)[k] == ps[k - |texts|];
      }
    }
  }

  lemma ChunkPayloadsSnoc(m: Message, source: string, cs: seq<string>, c: string,
                          hashOf: string -> string, now: string)
    ensures ChunkPayloads(m, source, cs + [c], hashOf, now)
         == ChunkPayloads(m, source, cs, hashOf, now) + [ChunkPayload(m, source, c, hashOf, now)]
  {
    var a := ChunkPayloads(m, source, cs + [c], hashOf, now);
    var b := ChunkPayloads(m, source, cs, hashOf, now) + [ChunkPayload(m, source, c, hashOf, now)];
    forall k | 0 <= k < |a| ensures a[k] == b[k] {
      var x := (cs + [c])[k];
      assert a[k] == ChunkPayload(m, source, x, hashOf, now);
      if k < |cs| {
        assert x == cs[k];
        assert b[k] == ChunkPayload(m, source, cs[k], hashOf, now);
      } else {
        assert x == c;
      }
    }
  }

  /** The inner loop of `ingest_messages` over the chunks of one message. */
  method PayloadsForChunks(msg: Message, source: string, chunks: seq<string>,
                           fingerprint: string -> string, builtAt: string)
    returns (texts: seq<string>, payloads: seq<Payload>)
    ensures payloads == ChunkPayloads(msg, source, chunks, ContentHash(fingerprint), builtAt)
    ensures texts == chunks
    ensures texts == seq(|payloads|, k requires 0 <= k < |payloads| => payloads[k].text)
  {
    texts, payloads := [], [];
    for j := 0 to |chunks|
      invariant payloads == ChunkPayloads(msg, source, chunks[..j], ContentHash(fingerprint), builtAt)
      invariant texts == chunks[..j]
    {
      var text := chunks[j];
      var contentHash := fingerprint(Normalize(text));
      texts := texts + [text];
      var payload := Payload(msg.guildId, msg.channelId, msg.authorName, msg.authorId, msg.id,
                             msg.createdAt, msg.createdAtTs, source,
                             text, contentHash, builtAt, builtAt, {source});
      assert contentHash == ContentHash(fingerprint)(text);
      ChunkPayloadsSnoc(msg, source, chunks[..j], text, ContentHash(fingerprint), builtAt);
      payloads := payloads + [payload];
      assert chunks[..j + 1] == chunks[..j] + [text];
    }
    assert chunks[..|chunks|] == chunks;
  }

  /** The merge loop of `ingest_messages`. */
  method MergePayloads(payloads: seq<Payload>, mergedAt: string) returns (unique: map<string, Payload>)
    ensures unique == Dedup(payloads, mergedAt)
  {
    unique := map[];
    for k := 0 to |payloads|
      invariant unique == Dedup(payloads[..k], mergedAt)
    {
      assert payloads[..k + 1][..k] == payloads[..k];
      var pld := payloads[k];
      var h := pld.contentHash;
      if h in unique {
        unique := unique[h := unique[h].(sources := unique[h].sources + pld.sources, lastSeen := mergedAt)];
      } else {
        unique := unique[h := pld];
      }
    }
    assert payloads[..|payloads|] == payloads;
  }

  /** `ingest_messages(messages, source)`; returns the number of points upserted. */
  method IngestMessages(store: VectorStore, messages: seq<Message>, source: string,
                        fingerprint: string -> string, encode: string -> Vector,
                        builtAt: string, mergedAt: string) returns (count: nat)
    modifies store
    ensures var ps := BatchPayloads(messages, source, ContentHash(fingerprint), builtAt);
      && (ps == [] ==> count == 0 && store.points == old(store.points))
      && (ps != [] ==> count == |Hashes(ps)| && store.points == old(store.points) + PointsOf(ps, encode, mergedAt))
  {
    if |messages| == 0 {
      return 0;
    }
    var texts, payloads := BuildPayloads(messages, source, fingerprint, builtAt);
    if |texts| == 0 {
      return 0;
    }
    var vectors := seq(|texts|, k requires 0 <= k < |texts| => encode(texts[k]));
    assert vectors == Embed(payloads, encode);
    var unique := MergePayloads(payloads, mergedAt);
    var vectorsMap := VectorsMap(payloads, vectors);
    DedupKeys(payloads, mergedAt);
    VectorsKeys(payloads, vectors);
    var points := map h | h in unique :: Point(h, vectorsMap[h], unique[h]);
    assert points == PointsOf(payloads, encode, mergedAt);
    store.Upsert(points);
    DedupCount(payloads, mergedAt);
    assert points.Keys == unique.Keys;
    assert |points| == |points.Keys| && |unique| == |unique.Keys|;
    count := |points|;
  }
}
