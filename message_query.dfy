/** `list_messages` (whatsapp-mcp-server/whatsapp.py): optional filters
    joined by AND, newest first, `LIMIT limit OFFSET page*limit`, and an
    optional splice of each result's context. */
module MessageQuery {
  import opened Common
  import opened Text
  import opened Select
  import opened Tables
  import opened ContextWindow

  /** The arguments of `list_messages`. */
  datatype MessageFilter = MessageFilter(
    after: Option<string>, before: Option<string>, senderPhoneNumber: Option<string>,
    chatJid: Option<string>, query: Option<string>, limit: int, page: int,
    includeContext: bool, contextBefore: int, contextAfter: int)

  /** One entry of `where_clauses` with its bound parameter. */
  datatype Clause =
    | TimestampAfter(t: int)
    | TimestampBefore(t: int)
    | SenderIs(sender: string)
    | ChatIs(jid: string)
    | ContentLike(pattern: string)

  predicate Holds(c: Clause, m: Message)
  {
    match c
    case TimestampAfter(t) => m.timestamp > t
    case TimestampBefore(t) => m.timestamp < t
    case SenderIs(s) => m.sender == s
    case ChatIs(j) => m.chatJid == j
    case ContentLike(q) => Like(m.content, q)
  }

  /** The clauses joined with AND (no clause: no WHERE). */
  predicate HoldsAll(cs: seq<Clause>, m: Message)
  {
    forall i :: 0 <= i < |cs| ==> Holds(cs[i], m)
  }

  lemma HoldsAllAppend(cs: seq<Clause>, c: Clause, m: Message)
    ensures HoldsAll(cs + [c], m) <==> HoldsAll(cs, m) && Holds(c, m)
  {
    assert (cs + [c])[|cs|] == c;
    assert forall i :: 0 <= i < |cs| ==> (cs + [c])[i] == cs[i];
  }

  function Satisfying(cs: seq<Clause>): Message -> bool
  {
    (m: Message) => HoldsAll(cs, m)
  }

  /** The filters a caller asks for, each present only when its argument is
      non-empty; a date that does not parse matches nothing. */
  predicate AfterOk(f: MessageFilter, parse: string -> Option<int>, m: Message)
  {
    Truthy(f.after) ==> parse(f.after.value).Some? && m.timestamp > parse(f.after.value).value
  }

  predicate BeforeOk(f: MessageFilter, parse: string -> Option<int>, m: Message)
  {
    Truthy(f.before) ==> parse(f.before.value).Some? && m.timestamp < parse(f.before.value).value
  }

  predicate SenderOk(f: MessageFilter, m: Message)
  {
    Truthy(f.senderPhoneNumber) ==> m.sender == f.senderPhoneNumber.value
  }

  predicate ChatOk(f: MessageFilter, m: Message)
  {
    Truthy(f.chatJid) ==> m.chatJid == f.chatJid.value
  }

  predicate QueryOk(f: MessageFilter, m: Message)
  {
    Truthy(f.query) ==> Like(m.content, f.query.value)
  }

  /** A message matches when it meets every supplied filter. */
  predicate MatchesFilter(f: MessageFilter, parse: string -> Option<int>, m: Message)
  {
    AfterOk(f, parse, m) && BeforeOk(f, parse, m) && SenderOk(f, m) && ChatOk(f, m) && QueryOk(f, m)
  }

  function Matches(f: MessageFilter, parse: string -> Option<int>): Message -> bool
  {
    (m: Message) => MatchesFilter(f, parse, m)
  }

  /** Every supplied date is valid ISO-8601. */
  predicate DatesParse(f: MessageFilter, parse: string -> Option<int>)
  {
    (Truthy(f.after) ==> parse(f.after.value).Some?) && (Truthy(f.before) ==> parse(f.before.value).Some?)
  }

  /** The ValueError raised for the first date that does not parse. */
  function DateError(f: MessageFilter, parse: string -> Option<int>): QueryError
  {
    if Truthy(f.after) && parse(f.after.value).None? then InvalidDate("after", f.after.value)
    else InvalidDate("before", OrElse(f.before, ""))
  }

  /** Builds `where_clauses` in the order of the source, parsing the dates
      as it goes; when the dates are valid the clauses select exactly the
      messages that meet every supplied filter. */
  method WhereClauses(f: MessageFilter, parse: string -> Option<int>) returns (r: Result<seq<Clause>, QueryError>)
    ensures r.Err? <==> !DatesParse(f, parse)
    ensures r.Err? ==> r.error == DateError(f, parse)
    ensures r.Ok? ==> forall m :: HoldsAll(r.value, m) <==> MatchesFilter(f, parse, m)
  {
    var clauses: seq<Clause> := [];
    if Truthy(f.after) {
      var t := parse(f.after.value);
      if t.None? {
        return Err(InvalidDate("after", f.after.value));
      }
      forall m { HoldsAllAppend(clauses, TimestampAfter(t.value), m); }
      clauses := clauses + [TimestampAfter(t.value)];
    }
    assert forall m :: HoldsAll(clauses, m) <==> AfterOk(f, parse, m);
    if Truthy(f.before) {
      var t := parse(f.before.value);
      if t.None? {
        return Err(InvalidDate("before", f.before.value));
      }
      forall m { HoldsAllAppend(clauses, TimestampBefore(t.value), m); }
      clauses := clauses + [TimestampBefore(t.value)];
    }
    assert forall m :: HoldsAll(clauses, m) <==> AfterOk(f, parse, m) && BeforeOk(f, parse, m);
    if Truthy(f.senderPhoneNumber) {
      forall m { HoldsAllAppend(clauses, SenderIs(f.senderPhoneNumber.value), m); }
      clauses := clauses + [SenderIs(f.senderPhoneNumber.value)];
    }
    if Truthy(f.chatJid) {
      forall m { HoldsAllAppend(clauses, ChatIs(f.chatJid.value), m); }
      clauses := clauses + [ChatIs(f.chatJid.value)];
    }
    if Truthy(f.query) {
      forall m { HoldsAllAppend(clauses, ContentLike(f.query.value), m); }
      clauses := clauses + [ContentLike(f.query.value)];
    }
    return Ok(clauses);
  }

  /** The joined messages that meet every supplied filter, in row order. */
  function MatchingMessages(db: MessagesDb, f: MessageFilter, parse: string -> Option<int>): seq<Message>
  {
    Filter(Joined(db), Matches(f, parse))
  }

  /** The matches do not depend on the page asked for. */
  lemma MatchingIgnoresPage(db: MessagesDb, f: MessageFilter, parse: string -> Option<int>, p: int)
    ensures MatchingMessages(db, f.(page := p), parse) == MatchingMessages(db, f, parse)
  {
    FilterSame(Joined(db), Matches(f.(page := p), parse), Matches(f, parse));
  }

  /** The requested page of the matches, newest first. */
  function ResultPage(db: MessagesDb, f: MessageFilter, parse: string -> Option<int>): (r: seq<Message>)
    ensures f.limit >= 0 ==> |r| <= f.limit
  {
    Window(SortBy(MatchingMessages(db, f, parse), TimeKey, true), f.limit, f.page * f.limit)
  }

  /** Each result with its context: the earlier messages, the result, the
      later messages, block after block in result order. */
  function ContextBlock(db: MessagesDb, m: Message, before: int, after: int): seq<Message>
  {
    var c := ContextAround(db, m, before, after);
    c.before + [c.message] + c.after
  }

  function ContextBlocks(db: MessagesDb, before: int, after: int): Message -> seq<Message>
  {
    (m: Message) => ContextBlock(db, m, before, after)
  }

  function Spliced(db: MessagesDb, results: seq<Message>, before: int, after: int): seq<Message>
  {
    FlatMap(results, ContextBlocks(db, before, after))
  }

  /** What `list_messages` hands to the formatter. */
  function ListedMessages(db: MessagesDb, f: MessageFilter, parse: string -> Option<int>): seq<Message>
  {
    var page := ResultPage(db, f, parse);
    if f.includeContext && page != [] then Spliced(db, page, f.contextBefore, f.contextAfter) else page
  }

  /** The splice loop: extends the output with each result's block. */
  method SpliceContext(db: MessagesDb, results: seq<Message>, before: int, after: int) returns (out: seq<Message>)
    ensures out == Spliced(db, results, before, after)
  {
    out := [];
    for i := 0 to |results|
      invariant out == Spliced(db, results[..i], before, after)
    {
      var context := ContextAround(db, results[i], before, after);
      out := out + context.before;
      out := out + [context.message];
      out := out + context.after;
      assert results[..i + 1][..i] == results[..i];
    }
    assert results[..|results|] == results;
  }

  /** A result lies in its own block, which holds at most `before + 1 + after`
      messages. */
  lemma ContextBlockHas(db: MessagesDb, m: Message, before: int, after: int)
    ensures m in ContextBlock(db, m, before, after)
    ensures before >= 0 && after >= 0 ==> |ContextBlock(db, m, before, after)| <= before + 1 + after
  {
    var c := ContextAround(db, m, before, after);
    assert ContextBlock(db, m, before, after)[|c.before|] == m;
  }

  /** `list_messages` with each result's own context spliced in (the
      corrected splice; the splice as written, by id alone, is
      `ListedMessagesById`). A database on which every query fails yields []
      before any argument is looked at (the table probe runs first); an
      invalid date raises; otherwise the requested page, with context
      spliced in when asked for and the page is non-empty. */
  method ListMessages(msgDb: Db<MessagesDb>, f: MessageFilter, parse: string -> Option<int>)
    returns (r: Result<seq<Message>, QueryError>)
    ensures msgDb.Unavailable? ==> r == Ok([])
    ensures msgDb.Available? && !DatesParse(f, parse) ==> r == Err(DateError(f, parse))
    ensures msgDb.Available? && DatesParse(f, parse) ==> r == Ok(ListedMessages(msgDb.tables, f, parse))
  {
    if msgDb.Unavailable? {
      return Ok([]);
    }
    var db := msgDb.tables;
    var clauses := WhereClauses(f, parse);
    if clauses.Err? {
      return Err(clauses.error);
    }
    FilterSame(Joined(db), Satisfying(clauses.value), Matches(f, parse));
    var offset := f.page * f.limit;
    var result := Window(SortBy(Filter(Joined(db), Satisfying(clauses.value)), TimeKey, true), f.limit, offset);
    if f.includeContext && result != [] {
      var spliced := SpliceContext(db, result, f.contextBefore, f.contextAfter);
      return Ok(spliced);
    }
    return Ok(result);
  }

  /** Every message on a page is a stored message that meets every supplied
      filter; the page is newest first and holds at most `limit` messages. */
  lemma ResultPageSound(db: MessagesDb, f: MessageFilter, parse: string -> Option<int>)
    ensures var r := ResultPage(db, f, parse);
      && (forall i :: 0 <= i < |r| ==> r[i] in Joined(db) && MatchesFilter(f, parse, r[i]))
      && SortedBy(r, TimeKey, true)
      && (f.limit >= 0 ==> |r| <= f.limit)
  {
    var matching := MatchingMessages(db, f, parse);
    var sorted := SortBy(matching, TimeKey, true);
    SortByCorrect(matching, TimeKey, true);
    WindowSorted(sorted, f.limit, f.page * f.limit, TimeKey, true);
    var r := ResultPage(db, f, parse);
    forall i | 0 <= i < |r| ensures r[i] in Joined(db) && MatchesFilter(f, parse, r[i]) {
      assert r[i] in r;
      WindowMembers(sorted, f.limit, f.page * f.limit, r[i]);
      SortByMembers(matching, TimeKey, true, r[i]);
    }
  }

  /** A page starts `page*limit` matches into the newest-first order. */
  lemma ResultPageOffset(db: MessagesDb, f: MessageFilter, parse: string -> Option<int>)
    requires 0 <= f.page * f.limit <= |SortBy(MatchingMessages(db, f, parse), TimeKey, true)|
    ensures var sorted := SortBy(MatchingMessages(db, f, parse), TimeKey, true);
      var r := ResultPage(db, f, parse);
      r == sorted[f.page * f.limit..f.page * f.limit + |r|]
  {
    var sorted := SortBy(MatchingMessages(db, f, parse), TimeKey, true);
    SortByCorrect(MatchingMessages(db, f, parse), TimeKey, true);
    WindowAt(sorted, f.limit, f.page * f.limit);
  }

  /** A stored message that meets the filters is among the matches. */
  lemma MatchIsSelected(db: MessagesDb, f: MessageFilter, parse: string -> Option<int>, m: Message)
    requires m in Joined(db) && MatchesFilter(f, parse, m)
    ensures m in MatchingMessages(db, f, parse)
  {
    var j :| 0 <= j < |Joined(db)| && Joined(db)[j] == m;
    assert Matches(f, parse)(Joined(db)[j]);
  }

  /** The k-th match in newest-first order is on page k / limit. */
  lemma PageOfMatch(db: MessagesDb, f: MessageFilter, parse: string -> Option<int>, k: int)
    requires f.limit > 0
    requires 0 <= k < |SortBy(MatchingMessages(db, f, parse), TimeKey, true)|
    ensures k / f.limit >= 0
    ensures SortBy(MatchingMessages(db, f, parse), TimeKey, true)[k] in ResultPage(db, f.(page := k / f.limit), parse)
  {
    MatchingIgnoresPage(db, f, parse, k / f.limit);
    WindowPageOf(SortBy(MatchingMessages(db, f, parse), TimeKey, true), f.limit, k);
  }

  /** With a positive limit every matching message is on some page. */
  lemma MatchOnSomePage(db: MessagesDb, f: MessageFilter, parse: string -> Option<int>, m: Message)
    requires f.limit > 0
    requires m in Joined(db) && MatchesFilter(f, parse, m)
    ensures exists p :: p >= 0 && m in ResultPage(db, f.(page := p), parse)
  {
    var matching := MatchingMessages(db, f, parse);
    MatchIsSelected(db, f, parse, m);
    var sorted := SortBy(matching, TimeKey, true);
    SortByMembers(matching, TimeKey, true, m);
    var k :| 0 <= k < |sorted| && sorted[k] == m;
    PageOfMatch(db, f, parse, k);
    var p := k / f.limit;
    assert m in ResultPage(db, f.(page := p), parse);
  }

  /** Reading pages 0..p in turn gives the first (p+1)*limit matches. */
  lemma ResultPagesConcatenate(db: MessagesDb, f: MessageFilter, parse: string -> Option<int>, p: nat)
    requires f.limit >= 0
    ensures Pages(SortBy(MatchingMessages(db, f, parse), TimeKey, true), f.limit, p) ==
      Window(SortBy(MatchingMessages(db, f, parse), TimeKey, true), (p + 1) * f.limit, 0)
    ensures ResultPage(db, f.(page := p), parse) == Window(SortBy(MatchingMessages(db, f, parse), TimeKey, true), f.limit, p * f.limit)
  {
    PagesConcatenate(SortBy(MatchingMessages(db, f, parse), TimeKey, true), f.limit, p);
    MatchingIgnoresPage(db, f, parse, p);
  }

  /** Splicing a concatenation is the concatenation of the splices: blocks
      come out in result order. */
  lemma SplicedAppend(db: MessagesDb, s: seq<Message>, t: seq<Message>, before: int, after: int)
    ensures Spliced(db, s + t, before, after) == Spliced(db, s, before, after) + Spliced(db, t, before, after)
  {
    FlatMapAppend(s, t, ContextBlocks(db, before, after));
  }

  /** Every result appears in the spliced output, so with context on the
      output is never shorter than the page. */
  lemma SplicedHasResults(db: MessagesDb, results: seq<Message>, before: int, after: int)
    ensures forall i :: 0 <= i < |results| ==> results[i] in Spliced(db, results, before, after)
    ensures |Spliced(db, results, before, after)| >= |results|
  {
    forall i | 0 <= i < |results| ensures results[i] in ContextBlocks(db, before, after)(results[i]) {
      ContextBlockHas(db, results[i], before, after);
    }
    FlatMapKeeps(results, ContextBlocks(db, before, after));
  }

  /** The splice as written: each result's context is fetched by its id
      alone, so the context returned is that of the first joined message
      with the id, which need not be the result itself; a lookup that fails
      propagates. */
  function ByIdBlocks(db: MessagesDb, before: int, after: int): Message -> Result<seq<Message>, QueryError>
  {
    (m: Message) =>
      match GetMessageContext(Available(db), m.id, before, after)
      case Err(e) => Err(e)
      case Ok(c) => Ok(c.before + [c.message] + c.after)
  }

  function SplicedById(db: MessagesDb, results: seq<Message>, before: int, after: int): Result<seq<Message>, QueryError>
  {
    FlatMapResult(results, ByIdBlocks(db, before, after))
  }

  /** Two chats, each holding a message with the id "x". */
  const TwinChatA := ChatRow("a", "A", 1)
  const TwinChatB := ChatRow("b", "B", 1)
  const TwinRowA := MessageRow("x", "a", "s", "in a", 1, false, "", "", "", [], [], [], 0)
  const TwinRowB := MessageRow("x", "b", "s", "in b", 1, false, "", "", "", [], [], [], 0)
  const TwinDb := MessagesDb([TwinChatA, TwinChatB], [TwinRowA, TwinRowB], map[])

  lemma TwinJoined()
    ensures Joined(TwinDb) == [JoinedMessage(TwinRowA, TwinChatA), JoinedMessage(TwinRowB, TwinChatB)]
  {
    var chats := [TwinChatA, TwinChatB];
    assert FindChat(chats, "a") == Some(TwinChatA);
    assert chats[1..] == [TwinChatB];
    assert !HasJid("b")(TwinChatA) && HasJid("b")(TwinChatB);
    assert First([TwinChatB], HasJid("b")) == Some(TwinChatB);
    assert FindChat(chats, "b") == Some(TwinChatB);
    assert [TwinRowA, TwinRowB][1..] == [TwinRowB];
    assert JoinRows([TwinRowB], chats) == [JoinedMessage(TwinRowB, TwinChatB)];
  }

  /** Zero messages of context around either twin is the twin alone. */
  lemma TwinContexts(m: Message)
    ensures ContextAround(TwinDb, m, 0, 0) == MessageContext(m, [], [])
    ensures ContextBlock(TwinDb, m, 0, 0) == [m]
  {
  }

  /** Fetching the context by the id "x" finds the twin of the first chat. */
  lemma TwinLookup()
    ensures GetMessageContext(Available(TwinDb), "x", 0, 0) ==
      Ok(MessageContext(JoinedMessage(TwinRowA, TwinChatA), [], []))
  {
    TwinJoined();
    var ja := JoinedMessage(TwinRowA, TwinChatA);
    assert IdIs("x")(ja);
    assert First(Joined(TwinDb), IdIs("x")) == Some(ja);
    TwinContexts(ja);
  }

  lemma TwinSplicedById()
    ensures SplicedById(TwinDb, [JoinedMessage(TwinRowB, TwinChatB)], 0, 0) == Ok([JoinedMessage(TwinRowA, TwinChatA)])
  {
    var ja, jb := JoinedMessage(TwinRowA, TwinChatA), JoinedMessage(TwinRowB, TwinChatB);
    TwinLookup();
    assert jb.id == "x";
    assert ByIdBlocks(TwinDb, 0, 0)(jb) == Ok([] + [ja] + []);
    assert [] + [ja] + [] == [ja];
    assert [jb][..0] == [];
    assert FlatMapResult([jb][..0], ByIdBlocks(TwinDb, 0, 0)) == Ok([]);
    assert [] + [ja] == [ja];
  }

  lemma TwinSpliced()
    ensures Spliced(TwinDb, [JoinedMessage(TwinRowB, TwinChatB)], 0, 0) == [JoinedMessage(TwinRowB, TwinChatB)]
  {
    var jb := JoinedMessage(TwinRowB, TwinChatB);
    TwinContexts(jb);
    assert [jb][..0] == [];
    assert Spliced(TwinDb, [jb], 0, 0) == Spliced(TwinDb, [], 0, 0) + ContextBlocks(TwinDb, 0, 0)(jb);
  }

  /** Two chats hold a message with the same id: the result from the second
      chat is replaced by the message of the first. */
  lemma SplicedByIdWrongTarget()
    ensures var jb := JoinedMessage(TwinRowB, TwinChatB);
      && jb in Joined(TwinDb)
      && SplicedById(TwinDb, [jb], 0, 0) == Ok([JoinedMessage(TwinRowA, TwinChatA)])
      && Spliced(TwinDb, [jb], 0, 0) == [jb]
  {
    TwinJoined();
    TwinSplicedById();
    TwinSpliced();
  }

  /** Joined messages with pairwise distinct ids. */
  predicate UniqueJoinedIds(db: MessagesDb)
  {
    forall i, j :: 0 <= i < |Joined(db)| && 0 <= j < |Joined(db)| && Joined(db)[i].id == Joined(db)[j].id ==> i == j
  }

  /** With distinct ids, looking a joined message up by its id finds it. */
  lemma LookupFindsSelf(db: MessagesDb, m: Message)
    requires UniqueJoinedIds(db) && m in Joined(db)
    ensures First(Joined(db), IdIs(m.id)) == Some(m)
  {
    var js := Joined(db);
    var k :| 0 <= k < |js| && js[k] == m;
    assert IdIs(m.id)(js[k]);
    var hit := First(js, IdIs(m.id));
    var h :| 0 <= h < |js| && js[h] == hit.value && IdIs(m.id)(js[h]);
  }

  /** With distinct ids, the context fetched by a joined message's id is
      the context around that message. */
  lemma LookupContext(db: MessagesDb, m: Message, before: int, after: int)
    requires UniqueJoinedIds(db) && m in Joined(db)
    ensures GetMessageContext(Available(db), m.id, before, after) == Ok(ContextAround(db, m, before, after))
  {
    LookupFindsSelf(db, m);
  }

  /** When no two joined messages share an id, the splice by id is the
      intended splice. */
  lemma SplicedByIdAgrees(db: MessagesDb, results: seq<Message>, before: int, after: int)
    requires UniqueJoinedIds(db)
    requires forall i :: 0 <= i < |results| ==> results[i] in Joined(db)
    ensures SplicedById(db, results, before, after) == Ok(Spliced(db, results, before, after))
  {
    forall i | 0 <= i < |results|
      ensures ByIdBlocks(db, before, after)(results[i]) == Ok(ContextBlocks(db, before, after)(results[i]))
    {
      LookupContext(db, results[i], before, after);
    }
    FlatMapResultOk(results, ByIdBlocks(db, before, after), ContextBlocks(db, before, after));
  }

  /** What `list_messages` as written hands to the formatter: the page, with
      each result's context fetched by its id. */
  function ListedMessagesById(db: MessagesDb, f: MessageFilter, parse: string -> Option<int>): Result<seq<Message>, QueryError>
  {
    var page := ResultPage(db, f, parse);
    if f.includeContext && page != [] then SplicedById(db, page, f.contextBefore, f.contextAfter) else Ok(page)
  }

  /** When no two joined messages share an id, `list_messages` as written
      returns what the corrected `ListMessages` returns. */
  lemma ListedByIdAgrees(db: MessagesDb, f: MessageFilter, parse: string -> Option<int>)
    requires UniqueJoinedIds(db)
    ensures ListedMessagesById(db, f, parse) == Ok(ListedMessages(db, f, parse))
  {
    var page := ResultPage(db, f, parse);
    ResultPageSound(db, f, parse);
    if f.includeContext && page != [] {
      SplicedByIdAgrees(db, page, f.contextBefore, f.contextAfter);
    }
  }
}
