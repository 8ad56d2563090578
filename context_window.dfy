/** `get_message_context` (whatsapp-mcp-server/whatsapp.py): a target message
    with the messages of its chat just before and just after it. */
module ContextWindow {
  import opened Common
  import opened Select
  import opened Tables

  /** Why a query raises instead of returning: the database failed
      (sqlite3.Error), no message has the requested id (ValueError), or an
      argument is not an ISO-8601 date (ValueError). */
  datatype QueryError = StorageError | NotFound(id: string) | InvalidDate(field: string, value: string)

  /** `messages.chat_jid = ? AND messages.timestamp < ?` */
  function EarlierIn(chatJid: string, t: int): Message -> bool
  {
    (m: Message) => m.chatJid == chatJid && m.timestamp < t
  }

  /** `messages.chat_jid = ? AND messages.timestamp > ?` */
  function LaterIn(chatJid: string, t: int): Message -> bool
  {
    (m: Message) => m.chatJid == chatJid && m.timestamp > t
  }

  /** The joined messages of the target's chat strictly older than it. */
  function Earlier(db: MessagesDb, target: Message): seq<Message>
  {
    Filter(Joined(db), EarlierIn(target.chatJid, target.timestamp))
  }

  /** The joined messages of the target's chat strictly newer than it. */
  function Later(db: MessagesDb, target: Message): seq<Message>
  {
    Filter(Joined(db), LaterIn(target.chatJid, target.timestamp))
  }

  /** The two neighbour queries: up to `before` earlier messages newest
      first, and up to `after` later messages oldest first (a negative
      count is SQLite's unbounded LIMIT). */
  function ContextAround(db: MessagesDb, target: Message, before: int, after: int): (r: MessageContext)
    ensures r.message == target
    ensures before >= 0 ==> |r.before| <= before
    ensures after >= 0 ==> |r.after| <= after
  {
    MessageContext(target,
      Window(SortBy(Earlier(db, target), TimeKey, true), before, 0),
      Window(SortBy(Later(db, target), TimeKey, false), after, 0))
  }

  /** `messages.id = ?` */
  function IdIs(id: string): Message -> bool
  {
    (m: Message) => m.id == id
  }

  /** `get_message_context`: the first joined message with the id is the
      target. */
  function GetMessageContext(msgDb: Db<MessagesDb>, id: string, before: int, after: int): (r: Result<MessageContext, QueryError>)
    ensures msgDb.Unavailable? ==> r == Err(StorageError)
    ensures msgDb.Available? ==>
      (r == Err(NotFound(id)) <==> forall i :: 0 <= i < |Joined(msgDb.tables)| ==> Joined(msgDb.tables)[i].id != id)
    ensures r.Ok? ==> msgDb.Available? && r.value.message.id == id && r.value.message in Joined(msgDb.tables)
    ensures r.Ok? ==> First(Joined(msgDb.tables), IdIs(id)) == Some(r.value.message)
    ensures r.Ok? ==> r.value == ContextAround(msgDb.tables, r.value.message, before, after)
  {
    if msgDb.Unavailable? then Err(StorageError)
    else
      match First(Joined(msgDb.tables), IdIs(id))
      case None => Err(NotFound(id))
      case Some(target) => Ok(ContextAround(msgDb.tables, target, before, after))
  }

  /** Every context message is a stored message of the target's chat, the
      earlier ones strictly older and newest first, the later ones strictly
      newer and oldest first; so the target is in neither list. */
  lemma ContextSound(db: MessagesDb, target: Message, before: int, after: int)
    ensures var c := ContextAround(db, target, before, after);
      && c.message == target
      && (forall i :: 0 <= i < |c.before| ==>
            c.before[i] in Joined(db) && c.before[i].chatJid == target.chatJid && c.before[i].timestamp < target.timestamp)
      && (forall i :: 0 <= i < |c.after| ==>
            c.after[i] in Joined(db) && c.after[i].chatJid == target.chatJid && c.after[i].timestamp > target.timestamp)
      && SortedBy(c.before, TimeKey, true) && SortedBy(c.after, TimeKey, false)
      && target !in c.before && target !in c.after
  {
    var c := ContextAround(db, target, before, after);
    var e := SortBy(Earlier(db, target), TimeKey, true);
    var l := SortBy(Later(db, target), TimeKey, false);
    SortByCorrect(Earlier(db, target), TimeKey, true);
    SortByCorrect(Later(db, target), TimeKey, false);
    WindowSorted(e, before, 0, TimeKey, true);
    WindowSorted(l, after, 0, TimeKey, false);
    forall i | 0 <= i < |c.before|
      ensures c.before[i] in Joined(db) && c.before[i].chatJid == target.chatJid && c.before[i].timestamp < target.timestamp
    {
      assert c.before[i] in c.before;
      WindowMembers(e, before, 0, c.before[i]);
      SortByMembers(Earlier(db, target), TimeKey, true, c.before[i]);
    }
    forall i | 0 <= i < |c.after|
      ensures c.after[i] in Joined(db) && c.after[i].chatJid == target.chatJid && c.after[i].timestamp > target.timestamp
    {
      assert c.after[i] in c.after;
      WindowMembers(l, after, 0, c.after[i]);
      SortByMembers(Later(db, target), TimeKey, false, c.after[i]);
    }
  }

  /** Each list holds exactly as many messages as its limit allows: all of
      the candidates when the limit is negative or large enough. */
  lemma ContextSizes(db: MessagesDb, target: Message, before: int, after: int)
    ensures var c := ContextAround(db, target, before, after);
      && |c.before| == (if 0 <= before < |Earlier(db, target)| then before else |Earlier(db, target)|)
      && |c.after| == (if 0 <= after < |Later(db, target)| then after else |Later(db, target)|)
  {
    SortByCorrect(Earlier(db, target), TimeKey, true);
    SortByCorrect(Later(db, target), TimeKey, false);
  }

  /** The earlier list holds the newest of the earlier messages, and the
      later list the oldest of the later ones: every candidate left out is
      no newer (no older) than every one kept. */
  lemma ContextNearest(db: MessagesDb, target: Message, before: int, after: int, x: Message, y: Message)
    ensures var c := ContextAround(db, target, before, after);
      && (x in Earlier(db, target) && x !in c.before && y in c.before ==> x.timestamp <= y.timestamp)
      && (x in Later(db, target) && x !in c.after && y in c.after ==> y.timestamp <= x.timestamp)
  {
    var c := ContextAround(db, target, before, after);
    var e := SortBy(Earlier(db, target), TimeKey, true);
    var l := SortBy(Later(db, target), TimeKey, false);
    SortByCorrect(Earlier(db, target), TimeKey, true);
    SortByCorrect(Later(db, target), TimeKey, false);
    if x in Earlier(db, target) && x !in c.before && y in c.before {
      SortByMembers(Earlier(db, target), TimeKey, true, x);
      WindowKeepsTop(e, before, TimeKey, true, x, y);
    }
    if x in Later(db, target) && x !in c.after && y in c.after {
      SortByMembers(Later(db, target), TimeKey, false, x);
      WindowKeepsTop(l, after, TimeKey, false, x, y);
    }
  }

  /** The first message of a chat has nothing before it, the last nothing
      after it. */
  lemma ContextAtEdges(db: MessagesDb, target: Message, before: int, after: int)
    ensures (forall m :: m in Joined(db) && m.chatJid == target.chatJid ==> m.timestamp >= target.timestamp) ==>
      ContextAround(db, target, before, after).before == []
    ensures (forall m :: m in Joined(db) && m.chatJid == target.chatJid ==> m.timestamp <= target.timestamp) ==>
      ContextAround(db, target, before, after).after == []
  {
    SortByCorrect(Earlier(db, target), TimeKey, true);
    SortByCorrect(Later(db, target), TimeKey, false);
  }

  /** Three messages of one chat at times 1, 2 and 3. */
  const ExampleChat := ChatRow("c", "Chat", 3)
  const ExampleRow1 := MessageRow("1", "c", "s", "a", 1, false, "", "", "", [], [], [], 0)
  const ExampleRow2 := MessageRow("2", "c", "s", "b", 2, false, "", "", "", [], [], [], 0)
  const ExampleRow3 := MessageRow("3", "c", "s", "c", 3, false, "", "", "", [], [], [], 0)
  const ExampleDb := MessagesDb([ExampleChat], [ExampleRow1, ExampleRow2, ExampleRow3], map[])

  lemma ExampleJoined()
    ensures Joined(ExampleDb) == [JoinedMessage(ExampleRow1, ExampleChat), JoinedMessage(ExampleRow2, ExampleChat),
                                  JoinedMessage(ExampleRow3, ExampleChat)]
  {
    var rows := [ExampleRow1, ExampleRow2, ExampleRow3];
    assert FindChat([ExampleChat], "c") == Some(ExampleChat);
    assert rows[1..] == [ExampleRow2, ExampleRow3] && rows[1..][1..] == [ExampleRow3];
    assert JoinRows([ExampleRow3], [ExampleChat]) == [JoinedMessage(ExampleRow3, ExampleChat)];
    assert JoinRows(rows[1..], [ExampleChat]) ==
      [JoinedMessage(ExampleRow2, ExampleChat), JoinedMessage(ExampleRow3, ExampleChat)];
    assert ExampleDb.messages == rows && ExampleDb.chats == [ExampleChat];
  }

  lemma ExampleSides()
    ensures var j2 := JoinedMessage(ExampleRow2, ExampleChat);
      && Earlier(ExampleDb, j2) == [JoinedMessage(ExampleRow1, ExampleChat)]
      && Later(ExampleDb, j2) == [JoinedMessage(ExampleRow3, ExampleChat)]
  {
    var j1, j2, j3 := JoinedMessage(ExampleRow1, ExampleChat), JoinedMessage(ExampleRow2, ExampleChat),
      JoinedMessage(ExampleRow3, ExampleChat);
    ExampleJoined();
    assert [j1, j2, j3][1..] == [j2, j3] && [j2, j3][1..] == [j3];
    assert Filter([j3], EarlierIn("c", 2)) == [];
    assert Filter([j2, j3], EarlierIn("c", 2)) == [];
    assert Filter([j3], LaterIn("c", 2)) == [j3];
    assert Filter([j2, j3], LaterIn("c", 2)) == [j3];
  }

  /** One message of context around the middle message is the first message
      before it and the third after it. */
  lemma ContextExample()
    ensures GetMessageContext(Available(ExampleDb), "2", 1, 1) ==
      Ok(MessageContext(JoinedMessage(ExampleRow2, ExampleChat), [JoinedMessage(ExampleRow1, ExampleChat)],
                        [JoinedMessage(ExampleRow3, ExampleChat)]))
  {
    var j1, j2, j3 := JoinedMessage(ExampleRow1, ExampleChat), JoinedMessage(ExampleRow2, ExampleChat),
      JoinedMessage(ExampleRow3, ExampleChat);
    ExampleJoined();
    ExampleSides();
    assert First(Joined(ExampleDb), IdIs("2")) == Some(j2) by {
      assert [j1, j2, j3][1..] == [j2, j3];
    }
    assert Window(SortBy([j1], TimeKey, true), 1, 0) == [j1];
    assert Window(SortBy([j3], TimeKey, false), 1, 0) == [j3];
  }
}
