/** The bridge's `MessageStore` (internal/database/messages.go): writes into
    and reads from the `chats` and `messages` tables of messages.db. Database
    failures are inputs: `fault` is the error `Exec`/`Query` returns, and
    `scanFault` the position and error of a row that `rows.Scan` rejects. */
module BridgeStore {
  import opened Common
  import opened Select
  import opened Tables

  /** The bridge's `types.Message`: the columns `GetMessages` selects. */
  datatype BridgeMessage = BridgeMessage(
    sender: string, content: string, time: int, isFromMe: bool, mediaType: string, filename: string)

  /** The condition `chats.jid != jid`. */
  function OtherJid(jid: string): ChatRow -> bool
  {
    (c: ChatRow) => c.jid != jid
  }

  /** `INSERT OR REPLACE INTO chats`: SQLite deletes the row with the same
      jid, then appends the new one. */
  function UpsertChat(chats: seq<ChatRow>, row: ChatRow): (r: seq<ChatRow>)
    ensures FindChat(r, row.jid) == Some(row)
    ensures forall jid :: jid != row.jid ==> FindChat(r, jid) == FindChat(chats, jid)
    ensures forall c :: c in r <==> c == row || (c in chats && c.jid != row.jid)
    ensures UniqueChatJids(chats) ==> UniqueChatJids(r)
  {
    var kept := Filter(chats, OtherJid(row.jid));
    FirstAppend(kept, [row], HasJid(row.jid));
    assert FindChat(kept, row.jid).None?;
    forall jid | jid != row.jid ensures FindChat(kept + [row], jid) == FindChat(chats, jid) {
      FirstAppend(kept, [row], HasJid(jid));
      FirstOfFilter(chats, HasJid(jid), OtherJid(row.jid));
    }
    KeptUnique(chats, row.jid);
    kept + [row]
  }

  /** Deleting one jid's rows keeps the other jids unique. */
  lemma {:induction false} KeptUnique(chats: seq<ChatRow>, gone: string)
    ensures UniqueChatJids(chats) ==> UniqueChatJids(Filter(chats, OtherJid(gone)))
  {
    if chats != [] && UniqueChatJids(chats) {
      var kept := Filter(chats, OtherJid(gone));
      var tail := Filter(chats[1..], OtherJid(gone));
      assert UniqueChatJids(chats[1..]);
      KeptUnique(chats[1..], gone);
      if chats[0].jid != gone {
        assert kept == [chats[0]] + tail;
        forall i | 0 < i < |kept| ensures kept[i].jid != kept[0].jid {
          assert kept[i] in chats[1..];
        }
      }
    }
  }

  /** Primary key of a message row. */
  function MessageKey(m: MessageRow): (string, string)
  {
    (m.id, m.chatJid)
  }

  /** `INSERT OR REPLACE INTO messages`: the row with the same (id, chat_jid)
      is deleted and the new row appended. */
  function UpsertMessage(messages: seq<MessageRow>, row: MessageRow): (r: seq<MessageRow>)
    ensures |r| > 0 && r[|r| - 1] == row
    ensures forall i :: 0 <= i < |r| - 1 ==> MessageKey(r[i]) != MessageKey(row)
    ensures forall m :: m in r <==> m == row || (m in messages && MessageKey(m) != MessageKey(row))
    ensures UniqueMessageKeys(messages) ==> UniqueMessageKeys(r)
  {
    var kept := Filter(messages, OtherKey(MessageKey(row)));
    KeptUniqueKeys(messages, MessageKey(row));
    kept + [row]
  }

  /** The condition `(id, chat_jid) != key`. */
  function OtherKey(key: (string, string)): MessageRow -> bool
  {
    (m: MessageRow) => MessageKey(m) != key
  }

  /** Deleting one key's rows keeps the other keys unique. */
  lemma {:induction false} KeptUniqueKeys(messages: seq<MessageRow>, gone: (string, string))
    ensures UniqueMessageKeys(messages) ==> UniqueMessageKeys(Filter(messages, OtherKey(gone)))
  {
    if messages != [] {
      var kept := Filter(messages, OtherKey(gone));
      var tail := Filter(messages[1..], OtherKey(gone));
      KeptUniqueKeys(messages[1..], gone);
      if UniqueMessageKeys(messages) {
        assert UniqueMessageKeys(messages[1..]);
        if MessageKey(messages[0]) != gone {
          assert kept == [messages[0]] + tail;
          forall i | 0 < i < |kept| ensures MessageKey(kept[i]) != MessageKey(kept[0]) {
            assert kept[i] in messages[1..];
          }
        } else {
          assert kept == tail;
        }
      }
    }
  }

  /** Order key of a message row: its timestamp. */
  function RowTimeKey(m: MessageRow): SortKey
  {
    IntKey(m.timestamp)
  }

  /** Order key of a chat row: its last message time. */
  function ChatRowTimeKey(c: ChatRow): SortKey
  {
    IntKey(c.lastMessageTime)
  }

  /** The condition `chat_jid = ?`. */
  function OfChat(chatJid: string): MessageRow -> bool
  {
    (m: MessageRow) => m.chatJid == chatJid
  }

  /** The rows of `SELECT ... FROM messages WHERE chat_jid = ? ORDER BY
      timestamp DESC LIMIT ?`: the chat's newest `limit` messages. */
  function ChatMessageRows(messages: seq<MessageRow>, chatJid: string, limit: int): (r: seq<MessageRow>)
    ensures forall i :: 0 <= i < |r| ==> r[i] in messages && r[i].chatJid == chatJid
    ensures forall i, j :: 0 <= i < j < |r| ==> r[i].timestamp >= r[j].timestamp
    ensures limit >= 0 ==> |r| == if limit < |Filter(messages, OfChat(chatJid))| then limit else |Filter(messages, OfChat(chatJid))|
    ensures limit < 0 ==> multiset(r) == multiset(Filter(messages, OfChat(chatJid)))
    ensures forall x, y :: x in Filter(messages, OfChat(chatJid)) && x !in r && y in r ==> x.timestamp <= y.timestamp
    ensures multiset(r) <= multiset(Filter(messages, OfChat(chatJid)))
  {
    var matching := Filter(messages, OfChat(chatJid));
    var sorted := SortBy(matching, RowTimeKey, true);
    SortByCorrect(matching, RowTimeKey, true);
    WindowSorted(sorted, limit, 0, RowTimeKey, true);
    var r := Window(sorted, limit, 0);
    forall i | 0 <= i < |r| ensures r[i] in matching {
      WindowMembers(sorted, limit, 0, r[i]);
      SortByMembers(matching, RowTimeKey, true, r[i]);
    }
    forall x, y | x in matching && x !in r && y in r ensures x.timestamp <= y.timestamp {
      SortByMembers(matching, RowTimeKey, true, x);
      WindowKeepsTop(sorted, limit, RowTimeKey, true, x, y);
    }
    assert limit < 0 ==> r == sorted;
    assert sorted == r + sorted[|r|..];
    r
  }

  /** How many rows `for rows.Next()` visits out of `n` when iteration may
      stop early with an error before row `stop.value.0`. */
  function Reached(n: nat, stop: Option<(nat, string)>): (k: nat)
    ensures k <= n
    ensures k < n <==> stop.Some? && stop.value.0 < n
  {
    if stop.Some? && stop.value.0 < n then stop.value.0 else n
  }

  /** The rows of `SELECT jid, last_message_time FROM chats ORDER BY
      last_message_time DESC`. */
  function ChatsByTime(chats: seq<ChatRow>): (r: seq<ChatRow>)
    ensures |r| == |chats|
    ensures forall c :: c in r <==> c in chats
  {
    SortByCorrect(chats, ChatRowTimeKey, true);
    forall c ensures c in SortBy(chats, ChatRowTimeKey, true) <==> c in chats {
      SortByMembers(chats, ChatRowTimeKey, true, c);
    }
    SortBy(chats, ChatRowTimeKey, true)
  }

  function ToBridgeMessage(m: MessageRow): BridgeMessage
  {
    BridgeMessage(m.sender, m.content, m.timestamp, m.isFromMe, m.mediaType, m.filename)
  }

  /** The `for rows.Next()` loop of `GetMessages`: each row read is
      converted; a failing scan of row `scanFault.value.0` is the error, and
      an iteration error before row `stop.value.0` ends the loop. */
  method ReadMessageRows(rows: seq<MessageRow>, scanFault: Option<(nat, string)>, stop: Option<(nat, string)>)
    returns (r: Result<seq<BridgeMessage>, string>)
    ensures scanFault.Some? && scanFault.value.0 < Reached(|rows|, stop) ==> r == Err(scanFault.value.1)
    ensures scanFault.None? || scanFault.value.0 >= Reached(|rows|, stop) ==> r.Ok?
    ensures r.Ok? ==> |r.value| == Reached(|rows|, stop)
    ensures r.Ok? ==> forall i :: 0 <= i < |r.value| ==> r.value[i] == ToBridgeMessage(rows[i])
  {
    var out: seq<BridgeMessage> := [];
    var i := 0;
    while i < |rows| && !(stop.Some? && stop.value.0 == i)
      invariant 0 <= i <= Reached(|rows|, stop)
      invariant |out| == i
      invariant forall k :: 0 <= k < i ==> out[k] == ToBridgeMessage(rows[k])
      invariant scanFault.Some? && scanFault.value.0 < i ==> false
    {
      if scanFault.Some? && scanFault.value.0 == i {
        return Err(scanFault.value.1);
      }
      out := out + [ToBridgeMessage(rows[i])];
      i := i + 1;
    }
    return Ok(out);
  }

  class MessageStore {
    var chats: seq<ChatRow>
    var messages: seq<MessageRow>

    /** The tables' primary keys hold. */
    predicate Valid()
      reads this
    {
      UniqueChatJids(chats) && UniqueMessageKeys(messages)
    }

    constructor ()
      ensures Valid() && chats == [] && messages == []
    {
      chats, messages := [], [];
    }

    /** `StoreChat`. */
    method StoreChat(jid: string, name: string, lastMessageTime: int, fault: Option<string>) returns (err: Option<string>)
      requires Valid()
      modifies this
      ensures Valid()
      ensures err == fault
      ensures messages == old(messages)
      ensures fault.None? ==> chats == UpsertChat(old(chats), ChatRow(jid, name, lastMessageTime))
      ensures fault.None? ==> FindChat(chats, jid) == Some(ChatRow(jid, name, lastMessageTime))
      ensures fault.None? ==> forall other :: other != jid ==> FindChat(chats, other) == FindChat(old(chats), other)
      ensures fault.Some? ==> chats == old(chats)
    {
      if fault.Some? {
        return fault;
      }
      chats := UpsertChat(chats, ChatRow(jid, name, lastMessageTime));
      return None;
    }

    /** `StoreMessage`: a message with neither content nor media is not
        stored, and that is not an error. */
    method StoreMessage(id: string, chatJid: string, sender: string, content: string, timestamp: int,
                        isFromMe: bool, mediaType: string, filename: string, url: string,
                        mediaKey: seq<uint8>, fileSha256: seq<uint8>, fileEncSha256: seq<uint8>,
                        fileLength: uint64, fault: Option<string>) returns (err: Option<string>)
      requires Valid()
      modifies this
      ensures Valid()
      ensures chats == old(chats)
      ensures content == "" && mediaType == "" ==> err.None? && messages == old(messages)
      ensures (content != "" || mediaType != "") ==> err == fault
      ensures (content != "" || mediaType != "") && fault.Some? ==> messages == old(messages)
      ensures (content != "" || mediaType != "") && fault.None? ==>
        messages == UpsertMessage(old(messages), MessageRow(id, chatJid, sender, content, timestamp, isFromMe,
                                                           mediaType, filename, url, mediaKey, fileSha256,
                                                           fileEncSha256, fileLength))
    {
      if content == "" && mediaType == "" {
        return None;
      }
      if fault.Some? {
        return fault;
      }
      messages := UpsertMessage(messages, MessageRow(id, chatJid, sender, content, timestamp, isFromMe,
                                                    mediaType, filename, url, mediaKey, fileSha256,
                                                    fileEncSha256, fileLength));
      return None;
    }

    /** `GetMessages` as written: a failing query or row scan is returned as
        the error. `stop` is an iteration error that ends `rows.Next()`
        early; `rows.Err()` is never consulted, so the rows read so far are
        returned as a success. */
    method GetMessages(chatJid: string, limit: int, fault: Option<string>, scanFault: Option<(nat, string)>,
                       stop: Option<(nat, string)>)
      returns (r: Result<seq<BridgeMessage>, string>)
      ensures fault.Some? ==> r == Err(fault.value)
      ensures fault.None? && scanFault.Some? && scanFault.value.0 < Reached(|ChatMessageRows(messages, chatJid, limit)|, stop) ==>
        r == Err(scanFault.value.1)
      ensures fault.None? && (scanFault.None? || scanFault.value.0 >= Reached(|ChatMessageRows(messages, chatJid, limit)|, stop)) ==>
        r.Ok?
      ensures r.Ok? ==> |r.value| == Reached(|ChatMessageRows(messages, chatJid, limit)|, stop)
      ensures r.Ok? ==> forall i :: 0 <= i < |r.value| ==> r.value[i] == ToBridgeMessage(ChatMessageRows(messages, chatJid, limit)[i])
      ensures r.Ok? && limit >= 0 ==> |r.value| <= limit
      ensures r.Ok? ==> forall i, j :: 0 <= i < j < |r.value| ==> r.value[i].time >= r.value[j].time
      ensures r.Ok? && stop.Some? && stop.value.0 < |ChatMessageRows(messages, chatJid, limit)| ==>
        |r.value| < |ChatMessageRows(messages, chatJid, limit)|
    {
      if fault.Some? {
        return Err(fault.value);
      }
      var rows := ChatMessageRows(messages, chatJid, limit);
      r := ReadMessageRows(rows, scanFault, stop);
    }

    /** `GetMessages` with the `rows.Err()` check after the loop: an
        iteration error is reported instead of a short result. */
    method GetMessagesChecked(chatJid: string, limit: int, fault: Option<string>, scanFault: Option<(nat, string)>,
                              stop: Option<(nat, string)>)
      returns (r: Result<seq<BridgeMessage>, string>)
      ensures fault.Some? ==> r == Err(fault.value)
      ensures fault.None? && scanFault.Some? && scanFault.value.0 < Reached(|ChatMessageRows(messages, chatJid, limit)|, stop) ==>
        r == Err(scanFault.value.1)
      ensures (fault.None? && (scanFault.None? || scanFault.value.0 >= Reached(|ChatMessageRows(messages, chatJid, limit)|, stop)) &&
               stop.Some? && stop.value.0 < |ChatMessageRows(messages, chatJid, limit)|) ==> r == Err(stop.value.1)
      ensures r.Ok? <==> fault.None? && (scanFault.None? || scanFault.value.0 >= |ChatMessageRows(messages, chatJid, limit)|) &&
                         (stop.None? || stop.value.0 >= |ChatMessageRows(messages, chatJid, limit)|)
      ensures r.Ok? ==> |r.value| == |ChatMessageRows(messages, chatJid, limit)|
      ensures r.Ok? ==> forall i :: 0 <= i < |r.value| ==> r.value[i] == ToBridgeMessage(ChatMessageRows(messages, chatJid, limit)[i])
    {
      r := GetMessages(chatJid, limit, fault, scanFault, stop);
      if r.Ok? && stop.Some? && stop.value.0 < |ChatMessageRows(messages, chatJid, limit)| {
        r := Err(stop.value.1);
      }
    }

    /** `GetChats` as written: one entry per chat row read, in the order of
        the query, mapped to its last message time. A failing query or row
        scan is the error; an iteration error (`stop`) ends the loop early
        and, with `rows.Err()` never consulted, the partial map is returned
        as a success. */
    method GetChats(fault: Option<string>, scanFault: Option<(nat, string)>, stop: Option<(nat, string)>)
      returns (r: Result<map<string, int>, string>)
      ensures fault.Some? ==> r == Err(fault.value)
      ensures fault.None? && scanFault.Some? && scanFault.value.0 < Reached(|chats|, stop) ==> r == Err(scanFault.value.1)
      ensures fault.None? && (scanFault.None? || scanFault.value.0 >= Reached(|chats|, stop)) ==> r.Ok?
      ensures r.Ok? ==> forall jid :: jid in r.value <==> exists k :: 0 <= k < Reached(|chats|, stop) && ChatsByTime(chats)[k].jid == jid
      ensures r.Ok? && Reached(|chats|, stop) == |chats| ==> forall jid :: jid in r.value <==> exists c :: c in chats && c.jid == jid
      ensures r.Ok? ==> forall jid :: jid in r.value ==>
        exists c :: c in chats && c.jid == jid && r.value[jid] == c.lastMessageTime
    {
      if fault.Some? {
        return Err(fault.value);
      }
      var rows := ChatsByTime(chats);
      var m: map<string, int> := map[];
      var i := 0;
      while i < |rows| && !(stop.Some? && stop.value.0 == i)
        invariant 0 <= i <= Reached(|rows|, stop)
        invariant forall jid :: jid in m <==> exists k :: 0 <= k < i && rows[k].jid == jid
        invariant forall jid :: jid in m ==> exists k :: 0 <= k < i && rows[k].jid == jid && m[jid] == rows[k].lastMessageTime
        invariant scanFault.Some? && scanFault.value.0 < i ==> false
      {
        if scanFault.Some? && scanFault.value.0 == i {
          return Err(scanFault.value.1);
        }
        m := m[rows[i].jid := rows[i].lastMessageTime];
        i := i + 1;
      }
      forall jid | jid in m
        ensures exists c :: c in chats && c.jid == jid && m[jid] == c.lastMessageTime
      {
        var k :| 0 <= k < i && rows[k].jid == jid && m[jid] == rows[k].lastMessageTime;
        assert rows[k] in rows;
      }
      if i == |chats| {
        forall c | c in chats ensures c.jid in m {
          var k :| 0 <= k < |rows| && rows[k] == c;
        }
      }
      return Ok(m);
    }

    /** `GetChats` with the `rows.Err()` check after the loop. */
    method GetChatsChecked(fault: Option<string>, scanFault: Option<(nat, string)>, stop: Option<(nat, string)>)
      returns (r: Result<map<string, int>, string>)
      ensures fault.Some? ==> r == Err(fault.value)
      ensures fault.None? && scanFault.Some? && scanFault.value.0 < Reached(|chats|, stop) ==> r == Err(scanFault.value.1)
      ensures (fault.None? && (scanFault.None? || scanFault.value.0 >= Reached(|chats|, stop)) &&
               stop.Some? && stop.value.0 < |chats|) ==> r == Err(stop.value.1)
      ensures r.Ok? <==> fault.None? && (scanFault.None? || scanFault.value.0 >= |chats|) && (stop.None? || stop.value.0 >= |chats|)
      ensures r.Ok? ==> forall jid :: jid in r.value <==> exists c :: c in chats && c.jid == jid
      ensures r.Ok? ==> forall jid :: jid in r.value ==>
        exists c :: c in chats && c.jid == jid && r.value[jid] == c.lastMessageTime
    {
      r := GetChats(fault, scanFault, stop);
      if r.Ok? && stop.Some? && stop.value.0 < |chats| {
        r := Err(stop.value.1);
      }
    }
  }

  /** With unique jids, `GetChats` maps each jid to exactly its chat's time. */
  lemma GetChatsExact(chats: seq<ChatRow>, m: map<string, int>, jid: string)
    requires UniqueChatJids(chats) && jid in m
    requires exists c :: c in chats && c.jid == jid && m[jid] == c.lastMessageTime
    ensures FindChat(chats, jid).Some? && m[jid] == FindChat(chats, jid).value.lastMessageTime
  {
    var c :| c in chats && c.jid == jid && m[jid] == c.lastMessageTime;
    FindChatUnique(chats, c);
  }
}
