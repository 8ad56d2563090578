/** The chat queries of whatsapp-mcp-server/whatsapp.py: `list_chats`,
    `get_chat`, `get_direct_chat_by_contact`, `get_contact_chats` and
    `get_last_interaction`. */
module ChatQuery {
  import opened Common
  import opened Text
  import opened Select
  import opened Tables
  import opened Resolver

  /** The join condition `chats.jid = messages.chat_jid AND
      chats.last_message_time = messages.timestamp`. */
  function AtLastMessage(c: ChatRow): MessageRow -> bool
  {
    (m: MessageRow) => m.chatJid == c.jid && m.timestamp == c.lastMessageTime
  }

  /** A chat row together with one of its messages. */
  function WithMessage(c: ChatRow, m: MessageRow): Chat
  {
    Chat(c.jid, c.name, c.lastMessageTime, Some(m.content), Some(m.sender), Some(m.isFromMe))
  }

  /** A chat row with NULL message columns. */
  function Bare(c: ChatRow): Chat
  {
    Chat(c.jid, c.name, c.lastMessageTime, None, None, None)
  }

  /** The chat columns of a result row are those of chat `c`. */
  predicate RowOfChat(c: ChatRow, x: Chat)
  {
    x.jid == c.jid && x.name == c.name && x.lastMessageTime == c.lastMessageTime
  }

  /** One chat's rows of the LEFT JOIN: a row for each message at the chat's
      last message time, or a single row of NULLs when there is none. */
  function LeftJoinRows(c: ChatRow, messages: seq<MessageRow>): (r: seq<Chat>)
    ensures |r| >= 1
    ensures forall i :: 0 <= i < |r| ==> RowOfChat(c, r[i])
  {
    var hits := Filter(messages, AtLastMessage(c));
    if hits == [] then [Bare(c)] else seq(|hits|, i requires 0 <= i < |hits| => WithMessage(c, hits[i]))
  }

  /** `chats LEFT JOIN messages`, chat by chat in row order. */
  function LeftJoin(chats: seq<ChatRow>, messages: seq<MessageRow>): (r: seq<Chat>)
    ensures |r| >= |chats|
  {
    if chats == [] then [] else LeftJoinRows(chats[0], messages) + LeftJoin(chats[1..], messages)
  }

  /** A row of one chat's LEFT JOIN carries one of the chat's messages at its
      last message time, or NULLs exactly when there is no such message. */
  lemma LeftJoinRowSound(c: ChatRow, messages: seq<MessageRow>, x: Chat)
    requires x in LeftJoinRows(c, messages)
    ensures || (x == Bare(c) && forall i :: 0 <= i < |messages| ==> !AtLastMessage(c)(messages[i]))
            || exists m :: m in messages && AtLastMessage(c)(m) && x == WithMessage(c, m)
  {
    var hits := Filter(messages, AtLastMessage(c));
    if hits != [] {
      var i :| 0 <= i < |hits| && LeftJoinRows(c, messages)[i] == x;
      assert hits[i] in messages && AtLastMessage(c)(hits[i]);
    }
  }

  /** Every LEFT JOIN row belongs to a stored chat. */
  lemma {:induction false} LeftJoinSound(chats: seq<ChatRow>, messages: seq<MessageRow>, x: Chat)
    requires x in LeftJoin(chats, messages)
    ensures exists c :: c in chats && x in LeftJoinRows(c, messages)
  {
    if x !in LeftJoinRows(chats[0], messages) {
      LeftJoinSound(chats[1..], messages, x);
      var c :| c in chats[1..] && x in LeftJoinRows(c, messages);
      assert c in chats;
    }
  }

  /** Every stored chat contributes all its LEFT JOIN rows. */
  lemma {:induction false} LeftJoinComplete(chats: seq<ChatRow>, messages: seq<MessageRow>, c: ChatRow, x: Chat)
    requires c in chats && x in LeftJoinRows(c, messages)
    ensures x in LeftJoin(chats, messages)
  {
    if c != chats[0] {
      assert c in chats[1..];
      LeftJoinComplete(chats[1..], messages, c, x);
    }
  }

  /** The chats without the join: one row of NULL message columns each. */
  function BareRows(chats: seq<ChatRow>): (r: seq<Chat>)
    ensures |r| == |chats| && forall i :: 0 <= i < |chats| ==> r[i] == Bare(chats[i])
  {
    seq(|chats|, i requires 0 <= i < |chats| => Bare(chats[i]))
  }

  /** The rows `list_chats` and `get_chat` select from. */
  function ChatRows(db: MessagesDb, includeLast: bool): (r: seq<Chat>)
    ensures |r| >= |db.chats|
    ensures !includeLast ==> |r| == |db.chats|
  {
    if includeLast then LeftJoin(db.chats, db.messages) else BareRows(db.chats)
  }

  /** A selectable row is a stored chat with one of its messages at its last
      message time (only when the join is made), or with NULLs. */
  lemma ChatRowsSound(db: MessagesDb, includeLast: bool, x: Chat)
    requires x in ChatRows(db, includeLast)
    ensures exists c :: (c in db.chats && RowOfChat(c, x) &&
      (|| x == Bare(c)
       || (includeLast && exists m :: m in db.messages && AtLastMessage(c)(m) && x == WithMessage(c, m))))
  {
    if includeLast {
      LeftJoinSound(db.chats, db.messages, x);
      var c :| c in db.chats && x in LeftJoinRows(c, db.messages);
      LeftJoinRowSound(c, db.messages, x);
    } else {
      var i :| 0 <= i < |db.chats| && BareRows(db.chats)[i] == x;
      assert RowOfChat(db.chats[i], x);
    }
  }

  /** Every stored chat has a selectable row. */
  lemma ChatRowsComplete(db: MessagesDb, includeLast: bool, c: ChatRow)
    requires c in db.chats
    ensures exists x :: x in ChatRows(db, includeLast) && RowOfChat(c, x)
  {
    if includeLast {
      var x := LeftJoinRows(c, db.messages)[0];
      LeftJoinComplete(db.chats, db.messages, c, x);
    } else {
      var i :| 0 <= i < |db.chats| && db.chats[i] == c;
      assert RowOfChat(c, BareRows(db.chats)[i]);
    }
  }

  /** `(LOWER(chats.name) LIKE LOWER(?) OR chats.jid LIKE ?)` */
  function ChatMatches(q: string): Chat -> bool
  {
    (x: Chat) => Like(x.name, q) || Like(x.jid, q)
  }

  function QueryRows(rows: seq<Chat>, query: Option<string>): seq<Chat>
  {
    if Truthy(query) then Filter(rows, ChatMatches(query.value)) else rows
  }

  function ActivityKey(x: Chat): SortKey
  {
    IntKey(x.lastMessageTime)
  }

  function NameKey(x: Chat): SortKey
  {
    TextKey(x.name)
  }

  /** `ORDER BY chats.last_message_time DESC` for "last_active", else
      `ORDER BY chats.name`. */
  function OrderChats(rows: seq<Chat>, sortBy: string): seq<Chat>
  {
    if sortBy == "last_active" then SortBy(rows, ActivityKey, true) else SortBy(rows, NameKey, false)
  }

  ghost predicate OrderedFor(rows: seq<Chat>, sortBy: string)
  {
    if sortBy == "last_active" then SortedBy(rows, ActivityKey, true) else SortedBy(rows, NameKey, false)
  }

  /** `list_chats` as intended: [] when messages.db fails; otherwise the
      requested page of the chat rows that match the query, in the chosen
      order, with NULL message columns when no last message is asked for. */
  function ListChats(msgDb: Db<MessagesDb>, query: Option<string>, limit: int, page: int,
                     includeLast: bool, sortBy: string): (r: seq<Chat>)
    ensures limit >= 0 ==> |r| <= limit
  {
    if msgDb.Unavailable? then []
    else Window(OrderChats(QueryRows(ChatRows(msgDb.tables, includeLast), query), sortBy), limit, page * limit)
  }

  lemma OrderChatsCorrect(rows: seq<Chat>, sortBy: string)
    ensures multiset(OrderChats(rows, sortBy)) == multiset(rows)
    ensures OrderedFor(OrderChats(rows, sortBy), sortBy)
  {
    SortByCorrect(rows, ActivityKey, true);
    SortByCorrect(rows, NameKey, false);
  }

  lemma OrderChatsMembers(rows: seq<Chat>, sortBy: string, x: Chat)
    ensures x in OrderChats(rows, sortBy) <==> x in rows
  {
    SortByMembers(rows, ActivityKey, true, x);
    SortByMembers(rows, NameKey, false, x);
  }

  /** `list_chats` keeps the chosen order. */
  lemma ListChatsOrdered(db: MessagesDb, query: Option<string>, limit: int, page: int, includeLast: bool, sortBy: string)
    ensures OrderedFor(ListChats(Available(db), query, limit, page, includeLast, sortBy), sortBy)
  {
    var rows := QueryRows(ChatRows(db, includeLast), query);
    if sortBy == "last_active" {
      SortByCorrect(rows, ActivityKey, true);
      WindowSorted(SortBy(rows, ActivityKey, true), limit, page * limit, ActivityKey, true);
    } else {
      SortByCorrect(rows, NameKey, false);
      WindowSorted(SortBy(rows, NameKey, false), limit, page * limit, NameKey, false);
    }
  }

  /** Every chat `list_chats` lists is a selectable row that matches the query. */
  lemma ListChatsSound(db: MessagesDb, query: Option<string>, limit: int, page: int, includeLast: bool, sortBy: string, x: Chat)
    requires x in ListChats(Available(db), query, limit, page, includeLast, sortBy)
    ensures x in ChatRows(db, includeLast)
    ensures Truthy(query) ==> Like(x.name, query.value) || Like(x.jid, query.value)
  {
    var rows := QueryRows(ChatRows(db, includeLast), query);
    WindowMembers(OrderChats(rows, sortBy), limit, page * limit, x);
    OrderChatsMembers(rows, sortBy, x);
    if Truthy(query) {
      var k :| 0 <= k < |rows| && rows[k] == x;
    }
  }

  /** A single page with no limit holds a row for every stored chat that
      matches the query. */
  lemma ListChatsComplete(db: MessagesDb, query: Option<string>, includeLast: bool, sortBy: string, c: ChatRow)
    requires c in db.chats
    requires !Truthy(query) || Like(c.name, query.value) || Like(c.jid, query.value)
    ensures exists x :: x in ListChats(Available(db), query, -1, 0, includeLast, sortBy) && RowOfChat(c, x)
  {
    ChatRowsComplete(db, includeLast, c);
    var x :| x in ChatRows(db, includeLast) && RowOfChat(c, x);
    var rows := QueryRows(ChatRows(db, includeLast), query);
    if Truthy(query) {
      var k :| 0 <= k < |ChatRows(db, includeLast)| && ChatRows(db, includeLast)[k] == x;
      assert ChatMatches(query.value)(ChatRows(db, includeLast)[k]);
    }
    assert x in rows;
    OrderChatsMembers(rows, sortBy, x);
    OrderChatsCorrect(rows, sortBy);
    assert ListChats(Available(db), query, -1, 0, includeLast, sortBy) == OrderChats(rows, sortBy);
  }

  /** `list_chats` as written: without the join the select list still names
      `messages` columns, SQLite rejects the statement, and the error
      handler returns []. */
  function ListChatsAsWritten(msgDb: Db<MessagesDb>, query: Option<string>, limit: int, page: int,
                              includeLast: bool, sortBy: string): seq<Chat>
  {
    if !includeLast then [] else ListChats(msgDb, query, limit, page, includeLast, sortBy)
  }

  /** A database with one chat: listed by the intended query, lost by the
      query as written when no last message is asked for. */
  lemma ListChatsAsWrittenLosesChats()
    ensures var c := ChatRow("123@s.whatsapp.net", "Alice", 5);
      var db := MessagesDb([c], [], map[]);
      && ListChats(Available(db), None, 20, 0, false, "last_active") == [Bare(c)]
      && ListChatsAsWritten(Available(db), None, 20, 0, false, "last_active") == []
  {
    var c := ChatRow("123@s.whatsapp.net", "Alice", 5);
    var db := MessagesDb([c], [], map[]);
    assert BareRows(db.chats) == [Bare(c)];
    assert SortBy([Bare(c)], ActivityKey, true) == [Bare(c)];
  }

  /** With the join the written query is the intended one. */
  lemma ListChatsAsWrittenWithLast(msgDb: Db<MessagesDb>, query: Option<string>, limit: int, page: int, sortBy: string)
    ensures ListChatsAsWritten(msgDb, query, limit, page, true, sortBy) == ListChats(msgDb, query, limit, page, true, sortBy)
  {
  }

  /** `c.jid = ?` */
  function ChatJidIs(jid: string): Chat -> bool
  {
    (x: Chat) => x.jid == jid
  }

  /** `get_chat` as intended: the first selectable row of the chat. */
  function GetChat(msgDb: Db<MessagesDb>, jid: string, includeLast: bool): (r: Option<Chat>)
    ensures r.Some? ==> msgDb.Available? && r.value.jid == jid && r.value in ChatRows(msgDb.tables, includeLast)
  {
    if msgDb.Unavailable? then None else First(ChatRows(msgDb.tables, includeLast), ChatJidIs(jid))
  }

  /** `get_chat` finds a chat exactly when one is stored under the jid. */
  lemma GetChatFound(db: MessagesDb, jid: string, includeLast: bool)
    ensures GetChat(Available(db), jid, includeLast).None? <==> forall c :: c in db.chats ==> c.jid != jid
    ensures GetChat(Available(db), jid, includeLast).Some? ==>
      exists c :: c in db.chats && RowOfChat(c, GetChat(Available(db), jid, includeLast).value)
  {
    var rows := ChatRows(db, includeLast);
    var r := GetChat(Available(db), jid, includeLast);
    if r.Some? {
      ChatRowsSound(db, includeLast, r.value);
    } else {
      forall c | c in db.chats ensures c.jid != jid {
        ChatRowsComplete(db, includeLast, c);
        var x :| x in rows && RowOfChat(c, x);
        var k :| 0 <= k < |rows| && rows[k] == x;
        assert !ChatJidIs(jid)(rows[k]);
      }
    }
  }

  /** `get_chat` as written: like `list_chats`, the statement without the
      join is rejected and the error handler returns None. */
  function GetChatAsWritten(msgDb: Db<MessagesDb>, jid: string, includeLast: bool): Option<Chat>
  {
    if !includeLast then None else GetChat(msgDb, jid, includeLast)
  }

  /** A stored chat that `get_chat` as written cannot return. */
  lemma GetChatAsWrittenLosesChat()
    ensures var c := ChatRow("123@s.whatsapp.net", "Alice", 5);
      var db := MessagesDb([c], [], map[]);
      && GetChat(Available(db), c.jid, false) == Some(Bare(c))
      && GetChatAsWritten(Available(db), c.jid, false) == None
  {
    var c := ChatRow("123@s.whatsapp.net", "Alice", 5);
    var db := MessagesDb([c], [], map[]);
    assert BareRows(db.chats) == [Bare(c)];
    assert ChatJidIs(c.jid)(Bare(c));
  }

  /** `c.jid LIKE '%phone%' AND c.jid NOT LIKE '%@g.us'` */
  function DirectChatLike(phone: string): Chat -> bool
  {
    (x: Chat) => Like(x.jid, phone) && NotGroupLike(x.jid)
  }

  /** `get_direct_chat_by_contact`: the first LEFT JOIN row of a non-group
      chat whose JID contains the phone number. */
  function GetDirectChatByContact(msgDb: Db<MessagesDb>, phone: string): (r: Option<Chat>)
    ensures r.Some? ==> msgDb.Available? && Like(r.value.jid, phone) && NotGroupLike(r.value.jid)
  {
    if msgDb.Unavailable? then None else First(LeftJoin(msgDb.tables.chats, msgDb.tables.messages), DirectChatLike(phone))
  }

  /** The first matching LEFT JOIN row belongs to the first matching chat. */
  lemma {:induction false} DirectChatIsFirstChat(chats: seq<ChatRow>, messages: seq<MessageRow>, phone: string)
    ensures var r := First(LeftJoin(chats, messages), DirectChatLike(phone));
      var c := First(chats, PersonChatLike(phone));
      && (r.Some? <==> c.Some?)
      && (r.Some? ==> r.value in LeftJoinRows(c.value, messages))
  {
    if chats != [] {
      var rows := LeftJoinRows(chats[0], messages);
      var rest := LeftJoin(chats[1..], messages);
      DirectChatIsFirstChat(chats[1..], messages, phone);
      FirstAppend(rows, rest, DirectChatLike(phone));
      FirstAppend([chats[0]], chats[1..], PersonChatLike(phone));
      assert [chats[0]] + chats[1..] == chats;
      assert forall i :: 0 <= i < |rows| ==> rows[i].jid == chats[0].jid;
      if PersonChatLike(phone)(chats[0]) {
        assert DirectChatLike(phone)(rows[0]);
      }
    }
  }

  /** `get_direct_chat_by_contact` and the chat fallback of
      `get_contact_by_phone` pick the same chat. */
  lemma DirectChatAgreesWithPhoneFallback(db: MessagesDb, phone: string)
    ensures GetDirectChatByContact(Available(db), phone).Some? <==> ContactByPhoneFallback(Available(db), phone).Some?
    ensures GetDirectChatByContact(Available(db), phone).Some? ==>
      GetDirectChatByContact(Available(db), phone).value.jid == ContactByPhoneFallback(Available(db), phone).value.jid
  {
    DirectChatIsFirstChat(db.chats, db.messages, phone);
  }

  /** `messages JOIN chats` seen from the chat side: each message of a
      stored chat with that chat's columns. */
  function InnerJoin(messages: seq<MessageRow>, chats: seq<ChatRow>): (r: seq<Chat>)
    ensures |r| <= |messages|
  {
    if messages == [] then []
    else
      var rest := InnerJoin(messages[1..], chats);
      match FindChat(chats, messages[0].chatJid)
      case None => rest
      case Some(c) => [WithMessage(c, messages[0])] + rest
  }

  lemma {:induction false} InnerJoinSound(messages: seq<MessageRow>, chats: seq<ChatRow>, x: Chat)
    requires x in InnerJoin(messages, chats)
    ensures exists m :: (m in messages && FindChat(chats, m.chatJid).Some? &&
                         x == WithMessage(FindChat(chats, m.chatJid).value, m))
  {
    if x !in InnerJoin(messages[1..], chats) {
      assert x == WithMessage(FindChat(chats, messages[0].chatJid).value, messages[0]);
    } else {
      InnerJoinSound(messages[1..], chats, x);
      var m :| m in messages[1..] && FindChat(chats, m.chatJid).Some? &&
        x == WithMessage(FindChat(chats, m.chatJid).value, m);
      assert m in messages;
    }
  }

  /** Every stored message of a stored chat appears in the join, paired with
      that chat. */
  lemma {:induction false} InnerJoinComplete(messages: seq<MessageRow>, chats: seq<ChatRow>, m: MessageRow)
    requires m in messages && FindChat(chats, m.chatJid).Some?
    ensures WithMessage(FindChat(chats, m.chatJid).value, m) in InnerJoin(messages, chats)
  {
    if m != messages[0] {
      assert m in messages[1..];
      InnerJoinComplete(messages[1..], chats, m);
    }
  }

  /** `m.sender = ? OR c.jid = ?` on a joined row. */
  function InvolvingChat(jid: string): Chat -> bool
  {
    (x: Chat) => x.lastSender == Some(jid) || x.jid == jid
  }

  /** `get_contact_chats`: [] when messages.db fails; otherwise the distinct
      joined rows involving the JID, latest chat first, one page. */
  function GetContactChats(msgDb: Db<MessagesDb>, jid: string, limit: int, page: int): (r: seq<Chat>)
    ensures limit >= 0 ==> |r| <= limit
  {
    if msgDb.Unavailable? then []
    else
      var rows := Distinct(Filter(InnerJoin(msgDb.tables.messages, msgDb.tables.chats), InvolvingChat(jid)));
      Window(SortBy(rows, ActivityKey, true), limit, page * limit)
  }

  /** `get_contact_chats` lists no row twice, latest chat first. */
  lemma ContactChatsOrdered(db: MessagesDb, jid: string, limit: int, page: int)
    ensures var r := GetContactChats(Available(db), jid, limit, page);
      && SortedBy(r, ActivityKey, true)
      && forall i, j :: 0 <= i < j < |r| ==> r[i] != r[j]
  {
    var rows := Distinct(Filter(InnerJoin(db.messages, db.chats), InvolvingChat(jid)));
    var sorted := SortBy(rows, ActivityKey, true);
    SortByCorrect(rows, ActivityKey, true);
    WindowSorted(sorted, limit, page * limit, ActivityKey, true);
    forall i, j | 0 <= i < j < |sorted| ensures sorted[i] != sorted[j] {
      SortByDistinct(rows, ActivityKey, true, i, j);
    }
    WindowDistinct(sorted, limit, page * limit);
  }

  /** Every chat `get_contact_chats` lists comes from a stored message that
      the JID sent or that lies in the JID's own chat, paired with that
      message's stored chat. */
  lemma ContactChatsSound(db: MessagesDb, jid: string, limit: int, page: int, x: Chat)
    requires x in GetContactChats(Available(db), jid, limit, page)
    ensures exists m :: (m in db.messages && (m.sender == jid || m.chatJid == jid) &&
                         FindChat(db.chats, m.chatJid).Some? && x == WithMessage(FindChat(db.chats, m.chatJid).value, m))
  {
    var filtered := Filter(InnerJoin(db.messages, db.chats), InvolvingChat(jid));
    var rows := Distinct(filtered);
    WindowMembers(SortBy(rows, ActivityKey, true), limit, page * limit, x);
    SortByMembers(rows, ActivityKey, true, x);
    var k :| 0 <= k < |rows| && rows[k] == x;
    var f :| 0 <= f < |filtered| && filtered[f] == x;
    InnerJoinSound(db.messages, db.chats, x);
  }

  /** With no limit, `get_contact_chats` lists every stored message that the
      JID sent or that lies in the JID's own chat, paired with its stored
      chat. */
  lemma ContactChatsComplete(db: MessagesDb, jid: string, m: MessageRow)
    requires m in db.messages && (m.sender == jid || m.chatJid == jid)
    requires FindChat(db.chats, m.chatJid).Some?
    ensures WithMessage(FindChat(db.chats, m.chatJid).value, m) in GetContactChats(Available(db), jid, -1, 0)
  {
    var x := WithMessage(FindChat(db.chats, m.chatJid).value, m);
    var joined := InnerJoin(db.messages, db.chats);
    InnerJoinComplete(db.messages, db.chats, m);
    var k :| 0 <= k < |joined| && joined[k] == x;
    assert InvolvingChat(jid)(joined[k]);
    var filtered := Filter(joined, InvolvingChat(jid));
    var f :| 0 <= f < |filtered| && filtered[f] == x;
    var rows := Distinct(filtered);
    SortByMembers(rows, ActivityKey, true, x);
    SortByCorrect(rows, ActivityKey, true);
    var sorted := SortBy(rows, ActivityKey, true);
    assert Window(sorted, -1, 0) == sorted;
  }

  /** `m.sender = ? OR c.jid = ?` on a joined message. */
  function InvolvingMessage(jid: string): Message -> bool
  {
    (m: Message) => m.sender == jid || m.chatJid == jid
  }

  /** `get_last_interaction`: the first of the joined messages involving the
      JID, newest first; None when there is none or messages.db fails. */
  function GetLastInteraction(msgDb: Db<MessagesDb>, jid: string): Option<Message>
  {
    if msgDb.Unavailable? then None
    else
      var sorted := SortBy(Filter(Joined(msgDb.tables), InvolvingMessage(jid)), TimeKey, true);
      if sorted == [] then None else Some(sorted[0])
  }

  /** The last interaction is a stored message involving the JID that no
      other such message is newer than; there is none exactly when no
      stored message involves the JID. */
  lemma LastInteractionIsLatest(db: MessagesDb, jid: string)
    ensures var r := GetLastInteraction(Available(db), jid);
      && (r.None? <==> forall m :: m in Joined(db) ==> !(m.sender == jid || m.chatJid == jid))
      && (r.Some? ==> r.value in Joined(db) && (r.value.sender == jid || r.value.chatJid == jid))
      && (r.Some? ==> forall m :: m in Joined(db) && (m.sender == jid || m.chatJid == jid) ==> m.timestamp <= r.value.timestamp)
  {
    var hits := Filter(Joined(db), InvolvingMessage(jid));
    var sorted := SortBy(hits, TimeKey, true);
    SortByCorrect(hits, TimeKey, true);
    if sorted != [] {
      SortByMembers(hits, TimeKey, true, sorted[0]);
      forall m | m in Joined(db) && (m.sender == jid || m.chatJid == jid) ensures m.timestamp <= sorted[0].timestamp {
        var k :| 0 <= k < |Joined(db)| && Joined(db)[k] == m;
        assert InvolvingMessage(jid)(Joined(db)[k]);
        SortByMembers(hits, TimeKey, true, m);
        var j :| 0 <= j < |sorted| && sorted[j] == m;
        if j > 0 {
          assert Precedes(TimeKey(sorted[0]), TimeKey(sorted[j]), true);
        }
      }
    } else {
      forall m | m in Joined(db) ensures !(m.sender == jid || m.chatJid == jid) {
        var k :| 0 <= k < |Joined(db)| && Joined(db)[k] == m;
        if InvolvingMessage(jid)(Joined(db)[k]) {
          SortByMembers(hits, TimeKey, true, m);
        }
      }
    }
  }
}
