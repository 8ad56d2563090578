/** The stored tables both programs share, and the records the Python side
    builds from query rows.

    messages.db (written by the bridge, read by the server) holds `chats`,
    `messages` and the server's own `contact_nicknames`; whatsapp.db (owned by
    the whatsmeow library) holds `whatsmeow_contacts`. A table is modelled as
    the sequence of its rows in row order; `chats` is keyed by `jid` and
    `messages` by `(id, chat_jid)`. */
module Tables {
  import opened Common
  import opened Select

  newtype uint8 = x: int | 0 <= x < 0x100
  newtype uint64 = x: int | 0 <= x < 0x1_0000_0000_0000_0000

  /** A row of `chats`. The bridge always writes a name and a time. */
  datatype ChatRow = ChatRow(jid: string, name: string, lastMessageTime: int)

  /** A row of `messages`, with every column the bridge writes. */
  datatype MessageRow = MessageRow(
    id: string, chatJid: string, sender: string, content: string, timestamp: int,
    isFromMe: bool, mediaType: string, filename: string, url: string,
    mediaKey: seq<uint8>, fileSha256: seq<uint8>, fileEncSha256: seq<uint8>,
    fileLength: uint64)

  /** A row of `contact_nicknames`, keyed by jid. */
  datatype NicknameRow = NicknameRow(nickname: string, updatedAt: int)

  /** The tables of messages.db. */
  datatype MessagesDb = MessagesDb(
    chats: seq<ChatRow>, messages: seq<MessageRow>, nicknames: map<string, NicknameRow>)

  /** A row of `whatsmeow_contacts` in whatsapp.db; every name column may be NULL. */
  datatype ContactRow = ContactRow(
    ourJid: string, theirJid: string, firstName: Option<string>, fullName: Option<string>,
    pushName: Option<string>, businessName: Option<string>)

  /** The server's `Message` record: a message row joined with its chat. */
  datatype Message = Message(
    timestamp: int, sender: string, content: string, isFromMe: bool, chatJid: string,
    id: string, chatName: string, mediaType: string)

  /** The server's `Chat` record; the `last*` fields come from a LEFT JOIN. */
  datatype Chat = Chat(
    jid: string, name: string, lastMessageTime: int, lastMessage: Option<string>,
    lastSender: Option<string>, lastIsFromMe: Option<bool>)

  /** The server's `Contact` record. */
  datatype Contact = Contact(
    phoneNumber: string, name: string, jid: string, firstName: Option<string>,
    fullName: Option<string>, pushName: Option<string>, businessName: Option<string>,
    nickname: Option<string>)

  /** A target message with the messages around it. */
  datatype MessageContext = MessageContext(message: Message, before: seq<Message>, after: seq<Message>)

  /** `chats` has at most one row per jid. */
  predicate UniqueChatJids(chats: seq<ChatRow>)
  {
    forall i, j :: 0 <= i < j < |chats| ==> chats[i].jid != chats[j].jid
  }

  /** `messages` has at most one row per (id, chat_jid). */
  predicate UniqueMessageKeys(messages: seq<MessageRow>)
  {
    forall i, j :: 0 <= i < j < |messages| ==>
      (messages[i].id, messages[i].chatJid) != (messages[j].id, messages[j].chatJid)
  }

  /** The condition `chats.jid = jid`. */
  function HasJid(jid: string): ChatRow -> bool
  {
    (c: ChatRow) => c.jid == jid
  }

  /** `SELECT ... FROM chats WHERE jid = ? LIMIT 1`. */
  function FindChat(chats: seq<ChatRow>, jid: string): (r: Option<ChatRow>)
    ensures r.Some? ==> r.value in chats && r.value.jid == jid
    ensures r.None? <==> forall i :: 0 <= i < |chats| ==> chats[i].jid != jid
  {
    First(chats, HasJid(jid))
  }

  /** With unique jids the lookup finds the one row that has the jid. */
  lemma FindChatUnique(chats: seq<ChatRow>, c: ChatRow)
    requires UniqueChatJids(chats) && c in chats
    ensures FindChat(chats, c.jid) == Some(c)
  {
    var r := FindChat(chats, c.jid);
    var i :| 0 <= i < |chats| && chats[i] == c;
    var k :| 0 <= k < |chats| && chats[k] == r.value && chats[k].jid == c.jid;
    if k < i {} else if i < k {}
  }

  /** A message row seen through `JOIN chats ON messages.chat_jid = chats.jid`. */
  function JoinedMessage(m: MessageRow, c: ChatRow): Message
  {
    Message(m.timestamp, m.sender, m.content, m.isFromMe, c.jid, m.id, c.name, m.mediaType)
  }

  /** `messages JOIN chats`: every message row whose chat is stored, in message
      row order (a message of an unknown chat drops out of the join). */
  function JoinRows(messages: seq<MessageRow>, chats: seq<ChatRow>): (r: seq<Message>)
    ensures |r| <= |messages|
  {
    if messages == [] then []
    else
      var rest := JoinRows(messages[1..], chats);
      match FindChat(chats, messages[0].chatJid)
      case None => rest
      case Some(c) => [JoinedMessage(messages[0], c)] + rest
  }

  /** A joined message comes from a stored message row and its stored chat. */
  lemma {:induction false} JoinRowsSound(messages: seq<MessageRow>, chats: seq<ChatRow>, x: Message)
    requires x in JoinRows(messages, chats)
    ensures exists m :: (m in messages && FindChat(chats, m.chatJid).Some? &&
                         x == JoinedMessage(m, FindChat(chats, m.chatJid).value))
  {
    if x !in JoinRows(messages[1..], chats) {
      assert FindChat(chats, messages[0].chatJid).Some?;
      assert x == JoinedMessage(messages[0], FindChat(chats, messages[0].chatJid).value);
    } else {
      JoinRowsSound(messages[1..], chats, x);
      var m :| m in messages[1..] && FindChat(chats, m.chatJid).Some? &&
        x == JoinedMessage(m, FindChat(chats, m.chatJid).value);
      assert m in messages;
    }
  }

  /** A stored message of a stored chat appears in the join. */
  lemma {:induction false} JoinRowsComplete(messages: seq<MessageRow>, chats: seq<ChatRow>, m: MessageRow)
    requires m in messages && FindChat(chats, m.chatJid).Some?
    ensures JoinedMessage(m, FindChat(chats, m.chatJid).value) in JoinRows(messages, chats)
  {
    if m != messages[0] {
      assert m in messages[1..];
      JoinRowsComplete(messages[1..], chats, m);
    }
  }

  function Joined(db: MessagesDb): seq<Message>
  {
    JoinRows(db.messages, db.chats)
  }

  /** Every joined message belongs to a stored chat and carries its name. */
  lemma JoinedFromChat(db: MessagesDb, x: Message)
    requires x in Joined(db)
    ensures FindChat(db.chats, x.chatJid).Some? && FindChat(db.chats, x.chatJid).value.name == x.chatName
  {
    JoinRowsSound(db.messages, db.chats, x);
  }

  /** Order key of a message: its timestamp. */
  function TimeKey(m: Message): SortKey
  {
    IntKey(m.timestamp)
  }
}
