/**
 * The decision logic of the RAG settings commands, with the Discord context
 * reduced to plain values: the invoking author's id, the guild's id, the id
 * of the message replied to (if any) and the first user and channel
 * mentioned (if any). Sending replies becomes a returned string.
 */
module RagSettings {
  import opened Wrappers
  import opened Text
  import opened PyParse
  import opened Records
  import opened Filters
  import opened Store
  import Retention
  import Retrieval
  import Chunking

  // ---------------------------------------------------------------- autoingest

  const OnWords: seq<string> := ["on", "true", "yes", "1", "enable", "enabled"]

  /** `rag autoingest <state>`: on exactly when the lower-cased state is one of
      the words that mean yes. */
  function AutoIngest(state: string): (on: bool)
    ensures on <==> exists k :: 0 <= k < |OnWords| && Lower(state) == OnWords[k]
  {
    Lower(state) in OnWords
  }

  /** The state is read without regard to case. */
  lemma AutoIngestIgnoresCase(s: string)
    ensures AutoIngest(Lower(s)) == AutoIngest(s)
  {
    LowerIdempotent(s);
  }

  /** `ON` and `Enabled` switch it on; `off` and ` on` (no strip) do not. */
  lemma AutoIngestExamples()
    ensures AutoIngest("ON") && AutoIngest("Enabled")
    ensures !AutoIngest("off") && !AutoIngest(" on")
  {
    assert Lower("ON") == "on";
    assert Lower("Enabled") == "enabled";
    assert Lower("off") == "off";
    assert Lower(" on") == " on";
  }

  // ---------------------------------------------------------------- scope

  const Scopes: seq<string> := ["guild", "channel", "author", "mixed"]

  const ScopeWarning: string := ":warning: invalid scope; use guild|channel|author|mixed"

  /** The stored retrieval scope after the command, and the reply. */
  datatype ScopeResult = ScopeResult(stored: string, reply: string)

  /** `rag scope <scope>`: a known scope (in any case) is stored lower-cased;
      anything else leaves the stored scope as it was and warns. */
  function ScopeCommand(arg: string, current: string): (r: ScopeResult)
    ensures r.stored == current || r.stored == Lower(arg)
    ensures r.stored in Scopes || r.stored == current
    ensures r.reply == ScopeWarning <==> Lower(arg) !in Scopes
  {
    var scope := Lower(arg);
    if scope !in Scopes then ScopeResult(current, ScopeWarning)
    else ScopeResult(scope, "RAG retrieval scope set to `" + scope + "`")
  }

  /** A valid stored scope stays valid whatever the argument. */
  lemma ScopeStaysValid(arg: string, current: string)
    requires current in Scopes
    ensures ScopeCommand(arg, current).stored in Scopes
  {
  }

  /** A warning leaves the stored scope unchanged, and an accepted scope is
      stored however it was capitalised. */
  lemma {:induction false} ScopeAccepted(arg: string, current: string)
    ensures ScopeCommand(arg, current).reply == ScopeWarning ==> ScopeCommand(arg, current).stored == current
    ensures Lower(arg) in Scopes ==> ScopeCommand(arg, current).stored == Lower(arg)
    ensures ScopeCommand(Lower(arg), current) == ScopeCommand(arg, current)
  {
    LowerIdempotent(arg);
  }

  // ---------------------------------------------------------------- delete-mine

  /** The ids the generator `int(x.strip()) for x in csv.split(",") if
      x.strip()` hands to `ids.extend`: blank pieces are skipped and the
      first piece `int` rejects ends the extension, keeping what came before
      it. The pieces of a word hold no whitespace, so `x.strip()` is `x`. */
  function TakeParsed(xs: seq<string>): seq<int> {
    if xs == [] then []
    else if xs[0] == "" then TakeParsed(xs[1..])
    else match PyInt(xs[0])
      case None => []
      case Some(v) => [v] + TakeParsed(xs[1..])
  }

  /** The ids `--ids` contributes: the first word after the first `--ids`,
      split on commas. With no word there `split()[0]` raises and nothing is
      added. (`strip()` before `split()` changes nothing `split()` sees.) */
  function IdsAfterFlag(flags: string): seq<int>
    requires Contains(flags, "--ids")
  {
    var words := Words(AfterFirst(flags, "--ids"));
    if words == [] then [] else TakeParsed(SplitOn(words[0], ','))
  }

  /** The ids `delete-mine` collects: the replied-to message first (only with
      `--reply` and a reply), then those after `--ids`. */
  function RequestedIds(flags: string, reference: Option<int>): seq<int> {
    (if Contains(flags, "--reply") && reference.Some? then [reference.value] else [])
    + (if Contains(flags, "--ids") then IdsAfterFlag(flags) else [])
  }

  /** What `delete-mine` decides to do. */
  datatype Outcome = DeleteAll | DeleteIds(ids: seq<int>) | Warn

  /** `--all` wins over any ids; without it the ids are deleted when there are
      any; otherwise only a warning is sent. */
  function DeleteMineOutcome(flags: string, reference: Option<int>): (o: Outcome)
    ensures Contains(flags, "--all") <==> o == DeleteAll
    ensures o.DeleteIds? ==> o.ids == RequestedIds(flags, reference) && o.ids != []
    ensures o == Warn <==> !Contains(flags, "--all") && RequestedIds(flags, reference) == []
  {
    if Contains(flags, "--all") then DeleteAll
    else
      var ids := RequestedIds(flags, reference);
      if ids != [] then DeleteIds(ids) else Warn
  }

  function DeleteMineReply(o: Outcome): string {
    match o
    case DeleteAll => "Deleted all your indexed data."
    case DeleteIds(ids) => "Deleted " + NatToString(|ids|) + " message(s) from RAG."
    case Warn => ":warning: Provide --reply or --ids or --all"
  }

  /** The filter `delete-mine` deletes with, if it deletes at all. */
  function OutcomeFilter(o: Outcome, authorId: int): Option<Filter> {
    match o
    case DeleteAll => Some(UserFilter(authorId))
    case DeleteIds(ids) => IdsFilter(ids, Some(authorId))
    case Warn => None
  }

  /** Whatever `delete-mine` deletes belongs to the caller: both of its filters
      select only payloads of the invoking author. */
  lemma AuthorScoped(flags: string, reference: Option<int>, authorId: int, p: Payload)
    requires DeleteMineOutcome(flags, reference) != Warn
    requires Selects(OutcomeFilter(DeleteMineOutcome(flags, reference), authorId), p)
    ensures p.authorId == authorId
  {
  }

  /** `--reply` on a reply puts the replied-to id first, unless `--all` takes
      over. */
  lemma ReplyIdFirst(flags: string, r: int)
    requires Contains(flags, "--reply") && !Contains(flags, "--all")
    ensures DeleteMineOutcome(flags, Some(r)).DeleteIds?
    ensures DeleteMineOutcome(flags, Some(r)).ids[0] == r
  {
    assert RequestedIds(flags, Some(r))[0] == r;
  }

  lemma {:induction false} TakeParsedOfNats(ns: seq<nat>)
    ensures TakeParsed(seq(|ns|, k requires 0 <= k < |ns| => NatToString(ns[k]))) == seq(|ns|, k requires 0 <= k < |ns| => ns[k] as int)
  {
    var ds := seq(|ns|, k requires 0 <= k < |ns| => NatToString(ns[k]));
    if ns != [] {
      PyIntOfNat(ns[0]);
      TakeParsedOfNats(ns[1..]);
      assert ds[1..] == seq(|ns[1..]|, k requires 0 <= k < |ns[1..]| => NatToString(ns[1..][k]));
      assert seq(|ns|, k requires 0 <= k < |ns| => ns[k] as int)
          == [ns[0] as int] + seq(|ns[1..]|, k requires 0 <= k < |ns[1..]| => ns[1..][k] as int);
    }
  }

  /** `--ids 3,14,15` asks for exactly the listed ids, in order. */
  lemma {:induction false} IdsListRoundTrip(ns: seq<nat>)
    requires ns != []
    ensures var csv := JoinWith(",", seq(|ns|, k requires 0 <= k < |ns| => NatToString(ns[k])));
            IdsAfterFlag("--ids " + csv) == seq(|ns|, k requires 0 <= k < |ns| => ns[k] as int)
  {
    var ds := seq(|ns|, k requires 0 <= k < |ns| => NatToString(ns[k]));
    var csv := JoinWith(",", ds);
    var flags := "--ids " + csv;
    assert StartsWith(flags, "--ids");
    assert FirstAt(flags, "--ids") == 0;
    assert AfterFirst(flags, "--ids") == " " + csv;
    LeadingSpaceWords(csv);
    assert forall k :: 0 <= k < |ds| ==> Free(ds[k], ',') && IsWord(ds[k]);
    JoinOfWordsIsWord(ds);
    WordThenRest(csv, []);
    assert csv + [] == csv;
    assert Words(AfterFirst(flags, "--ids")) == [csv];
    SplitJoin(ds, ',');
    TakeParsedOfNats(ns);
  }

  /** Pieces free of whitespace, joined by a comma, form one word. */
  lemma {:induction false} JoinOfWordsIsWord(xs: seq<string>)
    requires xs != []
    requires forall k :: 0 <= k < |xs| ==> IsWord(xs[k])
    ensures IsWord(JoinWith(",", xs))
  {
    if |xs| > 1 {
      JoinOfWordsIsWord(xs[1..]);
      var j := JoinWith(",", xs);
      var rest := JoinWith(",", xs[1..]);
      assert j == xs[0] + "," + rest;
      forall i | 0 <= i < |j| ensures !IsSpace(j[i]) {
        if i < |xs[0]| { assert j[i] == xs[0][i]; }
        else if i == |xs[0]| { assert j[i] == ','; }
        else { assert j[i] == rest[i - |xs[0]| - 1]; }
      }
    }
  }

  /** `ids.extend(int(x) for x in pieces if x)`: the values appended before
      `int` raises, which `extend` keeps. */
  method ExtendParsed(pieces: seq<string>) returns (parsed: seq<int>)
    ensures parsed == TakeParsed(pieces)
  {
    parsed := [];
    var i := 0;
    while i < |pieces|
      invariant i <= |pieces|
      invariant parsed + TakeParsed(pieces[i..]) == TakeParsed(pieces)
    {
      var x := pieces[i];
      assert pieces[i..][1..] == pieces[i + 1..];
      if x != "" {
        var v := PyInt(x);
        if v.None? {
          assert parsed + [] == parsed;
          return;
        }
        parsed := parsed + [v.value];
      }
      i := i + 1;
    }
    assert pieces[i..] == [];
    assert parsed + [] == parsed;
  }

  /** The id-collecting part of `privacy_delete_mine`. */
  method CollectIds(flags: string, reference: Option<int>) returns (ids: seq<int>)
    ensures ids == RequestedIds(flags, reference)
  {
    ids := [];
    if Contains(flags, "--reply") && reference.Some? {
      ids := ids + [reference.value];
    }
    ghost var replied := ids;
    var fromIds: seq<int> := [];
    if Contains(flags, "--ids") {
      var part := AfterFirst(flags, "--ids");
      var words := Words(part);
      if words != [] {
        var csv := words[0];
        fromIds := ExtendParsed(SplitOn(csv, ','));
      }
      assert fromIds == IdsAfterFlag(flags);
    }
    ids := ids + fromIds;
    assert ids == replied + (if Contains(flags, "--ids") then IdsAfterFlag(flags) else []);
  }

  /** `privacy delete-mine <flags>` by `authorId`, replying to `reference`. */
  method DeleteMine(store: VectorStore, flags: string, reference: Option<int>, authorId: int)
    returns (reply: string)
    modifies store
    ensures reply == DeleteMineReply(DeleteMineOutcome(flags, reference))
    ensures DeleteMineOutcome(flags, reference) == Warn ==> store.points == old(store.points)
    ensures DeleteMineOutcome(flags, reference) != Warn ==>
      store.points == Kept(old(store.points), OutcomeFilter(DeleteMineOutcome(flags, reference), authorId))
    ensures forall id :: id in old(store.points) && id !in store.points ==>
      old(store.points)[id].payload.authorId == authorId
  {
    var ids := CollectIds(flags, reference);
    if Contains(flags, "--all") {
      Retention.DeleteUser(store, authorId);
      return "Deleted all your indexed data.";
    }
    if ids != [] {
      Retention.DeleteMessagesByIds(store, ids, Some(authorId));
      return "Deleted " + NatToString(|ids|) + " message(s) from RAG.";
    }
    return ":warning: Provide --reply or --ids or --all";
  }

  // ---------------------------------------------------------------- clear

  /** The time bounds the `clear` token loop has collected. */
  datatype Bounds = Bounds(before: Option<int>, after: Option<int>)

  predicate IsBefore(tok: string) { StartsWith(tok, "--before=") }
  predicate IsAfter(tok: string) { StartsWith(tok, "--after=") }

  /** One token, as the loop body treats it: `--before=<t>` and then
      `--after=<t>` set their bound to the parse of what follows the first
      `=`; a parse failure raises (`None`). */
  function Step(b: Bounds, tok: string, parse: string -> Option<int>): Option<Bounds> {
    var b1 :=
      if IsBefore(tok) then
        match parse(tok[9..])
        case None => None
        case Some(t) => Some(b.(before := Some(t)))
      else Some(b);
    if b1.None? then None
    else if IsAfter(tok) then
      match parse(tok[8..])
      case None => None
      case Some(t) => Some(b1.value.(after := Some(t)))
    else b1
  }

  /** The loop over `flags.split()`, token by token. */
  function ScanTokens(toks: seq<string>, parse: string -> Option<int>): Option<Bounds> {
    if toks == [] then Some(Bounds(None, None))
    else match ScanTokens(toks[..|toks| - 1], parse)
      case None => None
      case Some(b) => Step(b, toks[|toks| - 1], parse)
  }

  /** A token whose date does not parse. */
  predicate BadToken(tok: string, parse: string -> Option<int>) {
    (IsBefore(tok) && parse(tok[9..]).None?) || (IsAfter(tok) && parse(tok[8..]).None?)
  }

  /** What one token does: it fails exactly when its date does not parse, and
      otherwise sets the bound it names and keeps the other. */
  lemma StepEffect(b: Bounds, tok: string, parse: string -> Option<int>)
    ensures Step(b, tok, parse).None? <==> BadToken(tok, parse)
    ensures Step(b, tok, parse).Some? ==>
      && Step(b, tok, parse).value.before == (if IsBefore(tok) then parse(tok[9..]) else b.before)
      && Step(b, tok, parse).value.after == (if IsAfter(tok) then parse(tok[8..]) else b.after)
  {
  }

  /** The scan fails exactly when some token's date does not parse. */
  lemma {:induction false} ScanFails(toks: seq<string>, parse: string -> Option<int>)
    ensures ScanTokens(toks, parse).None? <==> exists k :: 0 <= k < |toks| && BadToken(toks[k], parse)
  {
    if toks != [] {
      var init := toks[..|toks| - 1];
      var last := toks[|toks| - 1];
      ScanFails(init, parse);
      if ScanTokens(init, parse).Some? {
        StepEffect(ScanTokens(init, parse).value, last, parse);
      }
      if exists k :: 0 <= k < |init| && BadToken(init[k], parse) {
        var k :| 0 <= k < |init| && BadToken(init[k], parse);
        assert toks[k] == init[k];
      }
      if exists k :: 0 <= k < |toks| && BadToken(toks[k], parse) {
        var k :| 0 <= k < |toks| && BadToken(toks[k], parse);
        if k < |init| { assert init[k] == toks[k]; }
      }
    }
  }

  /** The last `--before=` token sets the upper bound and the last `--after=`
      token the lower one. */
  lemma {:induction false} LastTokenWins(toks: seq<string>, parse: string -> Option<int>, k: nat)
    requires ScanTokens(toks, parse).Some?
    requires k < |toks|
    ensures IsBefore(toks[k]) && (forall j :: k < j < |toks| ==> !IsBefore(toks[j])) ==>
      ScanTokens(toks, parse).value.before == parse(toks[k][9..])
    ensures IsAfter(toks[k]) && (forall j :: k < j < |toks| ==> !IsAfter(toks[j])) ==>
      ScanTokens(toks, parse).value.after == parse(toks[k][8..])
  {
    var init := toks[..|toks| - 1];
    var last := toks[|toks| - 1];
    StepEffect(ScanTokens(init, parse).value, last, parse);
    if k < |init| {
      LastTokenWins(init, parse, k);
      assert toks[k] == init[k];
      assert forall j :: k < j < |init| ==> init[j] == toks[j];
    }
  }

  /** With no `--before=` (`--after=`) token that bound stays unset. */
  lemma {:induction false} UnnamedBoundUnset(toks: seq<string>, parse: string -> Option<int>)
    requires ScanTokens(toks, parse).Some?
    ensures (forall j :: 0 <= j < |toks| ==> !IsBefore(toks[j])) ==> ScanTokens(toks, parse).value.before.None?
    ensures (forall j :: 0 <= j < |toks| ==> !IsAfter(toks[j])) ==> ScanTokens(toks, parse).value.after.None?
  {
    if toks != [] {
      var init := toks[..|toks| - 1];
      StepEffect(ScanTokens(init, parse).value, toks[|toks| - 1], parse);
      UnnamedBoundUnset(init, parse);
      assert forall j :: 0 <= j < |init| ==> init[j] == toks[j];
    }
  }

  lemma {:induction false} FailurePersists(toks: seq<string>, i: nat, parse: string -> Option<int>)
    requires i <= |toks|
    requires ScanTokens(toks[..i], parse).None?
    ensures ScanTokens(toks, parse).None?
    decreases |toks| - i
  {
    if i < |toks| {
      assert toks[..i + 1][..i] == toks[..i];
      FailurePersists(toks, i + 1, parse);
    } else {
      assert toks[..i] == toks;
    }
  }

  /** `ctx.message.mentions[0].id` when `--user` is in the flags. */
  function Mentioned(flags: string, flag: string, mention: Option<int>): Option<int> {
    if Contains(flags, flag) && mention.Some? then mention else None
  }

  /** The filter `clear` deletes with: always the guild, then the mentioned
      user and channel and the parsed bounds. */
  function ClearFilter(flags: string, guildId: int, userMention: Option<int>, channelMention: Option<int>,
                       b: Bounds): Option<Filter>
  {
    ScopedFilter(Some(guildId), Mentioned(flags, "--user", userMention),
                 Mentioned(flags, "--channel", channelMention), b.before, b.after)
  }

  /** `clear` never deletes outside the guild: its filter is never absent and
      selects only payloads of that guild. */
  lemma ClearIsGuildScoped(flags: string, guildId: int, userMention: Option<int>, channelMention: Option<int>,
                           b: Bounds, p: Payload)
    ensures ClearFilter(flags, guildId, userMention, channelMention, b).Some?
    ensures Selects(ClearFilter(flags, guildId, userMention, channelMention, b), p) ==> p.guildId == guildId
  {
  }

  /** The body of the token loop: a `--before=` token, then an `--after=`
      token, sets its bound; `None` when the date parser raises. */
  method ApplyToken(b: Bounds, token: string, parse: string -> Option<int>) returns (r: Option<Bounds>)
    ensures r == Step(b, token, parse)
  {
    var beforeTs, afterTs := b.before, b.after;
    if StartsWith(token, "--before=") {
      var t := parse(token[9..]);
      if t.None? {
        return None;
      }
      beforeTs := t;
    }
    if StartsWith(token, "--after=") {
      var t := parse(token[8..]);
      if t.None? {
        return None;
      }
      afterTs := t;
    }
    return Some(Bounds(beforeTs, afterTs));
  }

  /** The token loop of `rag_clear`. */
  method ScanFlags(toks: seq<string>, parse: string -> Option<int>) returns (r: Option<Bounds>)
    ensures r == ScanTokens(toks, parse)
  {
    var beforeTs: Option<int> := None;
    var afterTs: Option<int> := None;
    for i := 0 to |toks|
      invariant ScanTokens(toks[..i], parse) == Some(Bounds(beforeTs, afterTs))
    {
      var token := toks[i];
      assert toks[..i + 1][..i] == toks[..i] && toks[..i + 1][i] == token;
      var step := ApplyToken(Bounds(beforeTs, afterTs), token, parse);
      if step.None? {
        FailurePersists(toks, i + 1, parse);
        return None;
      }
      beforeTs, afterTs := step.value.before, step.value.after;
    }
    assert toks[..|toks|] == toks;
    return Some(Bounds(beforeTs, afterTs));
  }

  /** `rag clear <flags>` in guild `guildId`; `parse` is the date parser
      followed by the conversion to whole seconds. */
  method Clear(store: VectorStore, flags: string, guildId: int, userMention: Option<int>,
               channelMention: Option<int>, parse: string -> Option<int>) returns (reply: string)
    modifies store
    ensures ScanTokens(Words(flags), parse).None? ==> reply == "Clear failed" && store.points == old(store.points)
    ensures ScanTokens(Words(flags), parse).Some? ==>
      && reply == "Cleared."
      && store.points == Kept(old(store.points),
                              ClearFilter(flags, guildId, userMention, channelMention, ScanTokens(Words(flags), parse).value))
    ensures forall id :: id in old(store.points) && id !in store.points ==> old(store.points)[id].payload.guildId == guildId
  {
    var user: Option<int> := None;
    var channel: Option<int> := None;
    if Contains(flags, "--user") && userMention.Some? {
      user := userMention;
    }
    if Contains(flags, "--channel") && channelMention.Some? {
      channel := channelMention;
    }
    var bounds := ScanFlags(Words(flags), parse);
    if bounds.None? {
      return "Clear failed";
    }
    Retention.DeleteFiltered(store, Some(guildId), user, channel, bounds.value.before, bounds.value.after);
    return "Cleared.";
  }

  // ---------------------------------------------------------------- search

  /** The first 1500 characters of the context, marked with `...` when that
      cuts something off. */
  function Preview(context: string): (p: string)
    ensures |context| <= 1500 ==> p == context
    ensures |context| > 1500 ==> |p| == 1503 && p[..1500] == context[..1500] && EndsWith(p, "...")
  {
    var head := context[..Chunking.Min(1500, |context|)];
    if |context| > 1500 then head + "..." else head
  }

  /** The citation lines, numbered from one, one per line. */
  function CiteText(cites: seq<string>): string {
    JoinWith("\n", seq(|cites|, i requires 0 <= i < |cites| => Retrieval.Numbered(i, cites[i])))
  }

  /** `rag search <query>` given what `retrieve_context` returned. */
  function SearchReply(context: Option<string>, cites: Option<seq<string>>): string {
    if context.None? || context.value == "" then "No hits"
    else "```" + Preview(context.value) + "```\n" + CiteText(if cites.Some? then cites.value else [])
  }

  /** Citation `k` appears as line `k` of the reply's citation text, behind its
      number. */
  lemma {:induction false} CiteLine(cites: seq<string>, k: nat)
    requires k < |cites|
    ensures var lines := seq(|cites|, i requires 0 <= i < |cites| => Retrieval.Numbered(i, cites[i]));
            PieceAt(CiteText(cites), "\n", lines, k, JoinOffset("\n", lines, k))
            && lines[k] == "[" + NatToString(k + 1) + "] " + cites[k]
  {
    var lines := seq(|cites|, i requires 0 <= i < |cites| => Retrieval.Numbered(i, cites[i]));
    JoinLayout("\n", lines, k);
  }

  /** `rag search` on what `retrieve_context` returns for `hits` under
      `budget`: "No hits" exactly when there is no hit or the context is
      empty; otherwise a fence, the first 1500 characters of the context,
      `...` only when more was cut, the closing fence and then the numbered
      citations, whose lines `CiteLine` lays out. */
  lemma {:induction false} SearchOfRetrieval(hits: seq<Retrieval.Hit>, budget: int,
                                             context: Option<string>, cites: Option<seq<string>>)
    requires hits == [] ==> context == None && cites == None
    requires hits != [] ==> context == Some(Retrieval.Context(hits, budget)) && cites == Some(Retrieval.Cites(hits))
    ensures SearchReply(context, cites) == "No hits" <==> hits == [] || Retrieval.Context(hits, budget) == ""
    ensures hits != [] && Retrieval.Context(hits, budget) != "" ==>
      var c, r := Retrieval.Context(hits, budget), SearchReply(context, cites);
      var n := Chunking.Min(1500, |c|);
      var head := |Preview(c)| + 7;
      && |r| >= head && head == n + (if |c| > 1500 then 10 else 7)
      && r[..3 + n] == "```" + c[..n]
      && r[3 + n..6 + n] == (if |c| > 1500 then "..." else "```")
      && r[head..] == CiteText(Retrieval.Cites(hits))
      && |Retrieval.Cites(hits)| == |hits|
  {
    if hits != [] && Retrieval.Context(hits, budget) != "" {
      var c := Retrieval.Context(hits, budget);
      var p := Preview(c);
      var n := Chunking.Min(1500, |c|);
      var tail := "```\n" + CiteText(Retrieval.Cites(hits));
      var r := "```" + p + tail;
      assert SearchReply(context, cites) == r;
      assert r[0] == '`';
      assert p[..n] == c[..n];
      assert r[..3 + n] == "```" + p[..n];
      if |c| > 1500 {
        assert p[n..] == "...";
        assert r[3 + n..6 + n] == p[n..];
      } else {
        assert p == c;
        assert r[3 + n..6 + n] == tail[..3];
      }
      assert r[|p| + 7..] == CiteText(Retrieval.Cites(hits));
    }
  }
}
