# WhatsApp MCP: message store and query layer

This project models two parts of WhatsApp MCP and proves properties about them.

- **The bridge's `MessageStore`** (Go) writes chats and messages into
  `messages.db` using `INSERT OR REPLACE`. It reads back one chat's newest
  messages and the map from chat JID to last-message time.
- **The MCP server's query and contact layer** (Python) reads `messages.db`,
  plus the `whatsmeow_contacts` table of `whatsapp.db`. It covers:
  - the paged message search, with its optional context around each hit;
  - the context window around one message;
  - the chat listings and lookups;
  - the contact searches and the display-name resolution;
  - the `contact_nicknames` override store;
  - the text rendering of a contact.

## How the model is built

- **Tables are sequences of rows in row order.**
  - `chats` is keyed by `jid` and `messages` by `(id, chat_jid)`.
  - `contact_nicknames` is a map from JID to nickname and update time.
  - `INSERT OR REPLACE` deletes the row with the same key and appends the new row.
- **A database is `Available(tables)` or `Unavailable`.** `Unavailable` is a
  file on which every query raises `sqlite3.Error`, the first one included. Each operation's error path is modelled as the
  source takes it:
  - some return `[]` or `None`;
  - `get_message_context` raises;
  - `get_sender_name` falls back to the JID.
- **SQL clauses are functions, module `Select`** (file `select.dfy`). Each
  follows SQLite's rules:
  - WHERE is `Filter`;
  - `LIMIT 1` without ORDER BY is `First`;
  - `ORDER BY` is `SortBy`, a stable sort on a `SortKey`, with numbers before text;
  - `LIMIT n OFFSET k` is `Window`. A negative limit means no limit, and a
    negative offset means zero;
  - `DISTINCT` is `Distinct`.
- **`LIKE '%q%'`** is `Text.Like`: an ASCII case-insensitive substring test.
- **Timestamps are integers.** ISO-8601 date parsing is the parameter
  `parse: string -> Option<int>`; `None` stands for Python's `ValueError`.
- **Object state uses classes.**
  - `BridgeStore.MessageStore` holds the bridge's two tables as fields.
  - `Nicknames.NicknameStore` holds the nickname table.
  - Their methods change those fields and state the whole new state.
  - A database failure is an input: `fault` for a failing statement,
    `scanFault` for a failing row scan, and `stop` for an iteration error
    that ends `rows.Next()` early.

## Model

| member | source | states |
|---|---|---|
| Text.Lower | whatsapp-mcp-server/whatsapp.py:231 | `LOWER()` keeps the length and lower-cases each character on its own. |
| Text.ContainsIffOccurs | whatsapp-mcp-server/whatsapp.py:231 | The substring test behind `LIKE '%q%'` holds exactly when the pattern occurs at some position of the text. |
| Text.PhonePart | whatsapp-mcp-server/whatsapp.py:109-111 | The phone part is a prefix of the JID that contains no `@`. It stops right before the first `@` when there is one, and is the whole JID otherwise. |
| Text.PhonePartMatches | whatsapp-mcp-server/whatsapp.py:106-120 | A JID always matches `LIKE '%phone_part%'` for its own phone part, so the substring fallback finds at least the chat itself. |
| Select.SortBy | whatsapp-mcp-server/whatsapp.py:239 | `ORDER BY` as a stable sort on the key; its contract is `Select.SortByCorrect` and `Select.SortByMembers`. |
| Select.Filter | whatsapp-mcp-server/whatsapp.py:222-236 | WHERE keeps exactly the rows that satisfy the condition. Every kept row is a table row, and there are never more rows than in the table. |
| Select.First | whatsapp-mcp-server/whatsapp.py:96-103 | A `LIMIT 1` lookup returns nothing exactly when no row qualifies. Otherwise it returns the qualifying row that comes first in row order. |
| Select.SortByCorrect | whatsapp-mcp-server/whatsapp.py:239 | ORDER BY returns a permutation of its input (the same multiset and the same length), ordered by the key. |
| Select.SortByMembers | whatsapp-mcp-server/whatsapp.py:239 | A row is in the ordered result exactly when it is in the input. |
| Select.SortByDistinct | whatsapp-mcp-server/whatsapp.py:544-557 | Ordering a duplicate-free result (after DISTINCT) keeps it duplicate-free. |
| Select.Window | whatsapp-mcp-server/whatsapp.py:238-241 | `LIMIT l OFFSET k` is the run of consecutive rows that starts at the offset, with a negative offset read as 0. It holds `min(l, rows left)` rows, or all the rows left when `l` is negative. |
| Select.WindowMembers | whatsapp-mcp-server/whatsapp.py:238-241 | Every row of a page is a row of the ordered result. |
| Select.WindowSorted | whatsapp-mcp-server/whatsapp.py:239-241 | A page of an ordered result is still ordered. |
| Select.WindowDistinct | whatsapp-mcp-server/whatsapp.py:555-556 | A page of a duplicate-free result is duplicate-free. |
| Select.WindowKeepsTop | whatsapp-mcp-server/whatsapp.py:316-323 | A leading `LIMIT` over an ordered result keeps its top rows: every kept row comes no later in key order than any row left out. |
| Select.PagesConcatenate | whatsapp-mcp-server/whatsapp.py:238-241 | Reading pages 0 to p of size `limit`, one after another, gives exactly the first `(p+1)*limit` rows. No row is skipped or repeated. |
| Select.WindowPageOf | whatsapp-mcp-server/whatsapp.py:238-241 | With a positive limit, row k of the ordered result is on page `k / limit`. |
| Select.FlatMapResultOk | whatsapp-mcp-server/whatsapp.py:260-267 | When every per-result context lookup succeeds, the splice that can fail equals the plain splice of the blocks. |
| Select.Distinct | whatsapp-mcp-server/whatsapp.py:545 | `SELECT DISTINCT` keeps every row value, adds none, and lists none twice. |
| Select.OffsetStart | whatsapp-mcp-server/whatsapp.py:238-240 | The first row an OFFSET keeps is never past the end of the result. |
| Tables.FindChat | whatsapp-mcp-server/whatsapp.py:96-103 | A lookup of `chats` by JID returns a stored row with that JID, and returns nothing exactly when no row has it. |
| Tables.FindChatUnique | whatsapp-bridge/internal/database/messages.go:10-13 | With the key property the upsert keeps, a lookup by a stored chat's JID returns that very chat. |
| Tables.JoinRows | whatsapp-mcp-server/whatsapp.py:197-198 | `messages JOIN chats` has no more rows than `messages`. |
| Tables.JoinRowsSound | whatsapp-mcp-server/whatsapp.py:197-198 | Every joined row comes from a stored message and the stored chat of its `chat_jid`. |
| Tables.JoinRowsComplete | whatsapp-mcp-server/whatsapp.py:197-198 | Every stored message whose chat is stored appears in the join. |
| Tables.JoinedFromChat | whatsapp-mcp-server/whatsapp.py:197-198 | A joined message carries the name of the stored chat with its `chat_jid`. |
| Nicknames.NicknameOf | whatsapp-mcp-server/whatsapp.py:1076-1096 | The nickname lookup finds a value exactly when the JID has a row, and that value is the stored nickname. |
| Nicknames.SetTwiceKeepsLast | whatsapp-mcp-server/whatsapp.py:1061-1064 | Because of `INSERT OR REPLACE`, the second `set` for a JID wins. |
| Nicknames.NicknameStore.constructor | whatsapp-mcp-server/whatsapp.py:1054-1139 | A new store has no nicknames. |
| Nicknames.NicknameStore.Set | whatsapp-mcp-server/whatsapp.py:1054-1073 | On success the JID maps to the new nickname and time, other JIDs are unchanged, and the confirmation text is returned. On a database error nothing changes and `Database error: ...` is returned. |
| Nicknames.NicknameStore.Get | whatsapp-mcp-server/whatsapp.py:1076-1096 | Without an error the result is the stored nickname exactly when the JID has one. On an error it is None. |
| Nicknames.NicknameStore.Remove | whatsapp-mcp-server/whatsapp.py:1099-1117 | The operation succeeds exactly when there is no error and the JID had a row; that row is then gone and nothing else changes. Otherwise nothing changes, with the "No nickname found" or "Database error" message. |
| Nicknames.NicknameStore.List | whatsapp-mcp-server/whatsapp.py:1120-1139 | Every stored (jid, nickname) pair appears, and nothing else; the pairs are in nickname order. On an error the list is empty. |
| BridgeStore.UpsertChat | whatsapp-bridge/internal/database/messages.go:10-13 | After `INSERT OR REPLACE INTO chats`, the JID finds the new row and every other JID finds what it found before. The rows are the new row plus the old rows with other JIDs, and JIDs stay unique. |
| BridgeStore.UpsertMessage | whatsapp-bridge/internal/database/messages.go:25-31 | After `INSERT OR REPLACE INTO messages`, the new row is last and the old row with the same `(id, chat_jid)` is gone. All other rows stay, and keys stay unique. |
| BridgeStore.ChatMessageRows | whatsapp-bridge/internal/database/messages.go:36-42 | The rows `GetMessages` selects are the chat's stored messages, newest first. With a limit there are exactly `min(limit, n)` of them for a chat of `n` messages, and no message left out is newer than one kept. Each row is one of the chat's stored messages, and no stored message appears more often than it is stored. With no limit they are a permutation of all of the chat's messages. |
| BridgeStore.Reached | whatsapp-bridge/internal/database/messages.go:46 | `for rows.Next()` visits fewer than all `n` rows exactly when an iteration error occurs before the last row. |
| BridgeStore.ChatsByTime | whatsapp-bridge/internal/database/messages.go:62 | `ORDER BY last_message_time DESC` over `chats` keeps every row and adds none. |
| BridgeStore.ReadMessageRows | whatsapp-bridge/internal/database/messages.go:45-57 | The loop converts each row it reaches, in order. A failing scan of a reached row is the error. Otherwise the result is a success holding exactly the reached rows. |
| BridgeStore.MessageStore.constructor | whatsapp-bridge/internal/database/messages.go:9-80 | A new store is empty and satisfies both key properties. |
| BridgeStore.MessageStore.StoreChat | whatsapp-bridge/internal/database/messages.go:9-15 | On success the chat table is the upsert of the new row, so the JID finds the new row and other JIDs are unaffected. On an error nothing changes and the error is returned. Messages are never touched, and the key properties hold. |
| BridgeStore.MessageStore.StoreMessage | whatsapp-bridge/internal/database/messages.go:18-32 | A message with neither content nor media is skipped, with no error. Otherwise the message table is the upsert of the row, or stays unchanged when there is an error, and the error is returned. Chats are never touched. |
| BridgeStore.MessageStore.GetMessages | whatsapp-bridge/internal/database/messages.go:35-58 | As written. A query error, or a failing scan of a row the loop reaches, is returned as the error. Without either, the call succeeds. It converts, in order, each selected row up to the first iteration error: newest first, at most `limit`. An iteration error before the last row gives a shorter result that is still a success. |
| BridgeStore.MessageStore.GetMessagesChecked | whatsapp-bridge/internal/database/messages.go:35-58 | With `rows.Err()` checked, the call succeeds exactly when no query, scan or iteration error occurs, and then converts every selected row in order. |
| BridgeStore.MessageStore.GetChats | whatsapp-bridge/internal/database/messages.go:61-80 | As written. A query error, or a failing scan of a row the loop reaches, is returned as the error. Without either, the call succeeds. The map's keys are the JIDs of the rows read before any iteration error, each mapped to the last-message time of a chat with that JID. With no iteration error the keys are exactly the stored chat JIDs. |
| BridgeStore.MessageStore.GetChatsChecked | whatsapp-bridge/internal/database/messages.go:61-80 | With `rows.Err()` checked, the call succeeds exactly when no query, scan or iteration error occurs, and the map's keys are then exactly the stored chat JIDs. |
| BridgeStore.GetChatsExact | whatsapp-bridge/internal/database/messages.go:68-77 | With unique JIDs, each entry of the map is exactly its chat's last-message time. |
| Resolver.IsGroup | whatsapp-mcp-server/whatsapp.py:42-44 | `is_group` is the `@g.us` suffix test; its contract is `Resolver.GroupClassification` and `Resolver.NotGroupLikeIsPerson`. |
| Resolver.NicknameLookup | whatsapp-mcp-server/whatsapp.py:66-69 | The nickname check that opens `get_sender_name`; `Resolver.SenderNameNicknameWins` and `Resolver.SenderNameOnFailure` state its effect. |
| Resolver.ChatNameFallback | whatsapp-mcp-server/whatsapp.py:92-125 | The chat-table fallback of `get_sender_name`; `Resolver.SenderNameFromChats` states its choice: exact match first, then the first chat containing the phone part, else the JID. |
| Resolver.GroupClassification | whatsapp-mcp-server/whatsapp.py:42-44 | A JID with the `@g.us` domain is a group. JIDs formed with `@s.whatsapp.net` or `@c.us` are not. |
| Resolver.NotGroupLikeIsPerson | whatsapp-mcp-server/whatsapp.py:908 | The SQL filter `jid NOT LIKE '%@g.us'` passes only JIDs that `is_group` calls persons. |
| Resolver.FirstTruthy | whatsapp-mcp-server/whatsapp.py:86-89 | A chain of Python `or`s yields the fallback or a non-empty string. |
| Resolver.FirstTruthyPriority | whatsapp-mcp-server/whatsapp.py:86-89 | The chain picks the first non-empty candidate in priority order, and the fallback when there is none. |
| Resolver.ContactNamePriority | whatsapp-mcp-server/whatsapp.py:86-89 | `full or push or first or business or jid` is the first-truthy choice in exactly that order. |
| Resolver.ContactOf | whatsapp-mcp-server/whatsapp.py:76-81 | A lookup of the contact row by `their_jid` returns a stored row with that JID, and returns nothing exactly when none has it. |
| Resolver.GetSenderName | whatsapp-mcp-server/whatsapp.py:63-129 | The name of a non-empty JID is never empty, whatever the databases hold or whether they fail. |
| Resolver.SenderNameNicknameWins | whatsapp-mcp-server/whatsapp.py:66-69 | A non-empty nickname is the name, independent of contacts and chats. |
| Resolver.SenderNameFromContact | whatsapp-mcp-server/whatsapp.py:73-89 | Without a nickname, a contact row decides: the first non-empty of its full, push, first and business names, else the JID. Chats play no part. |
| Resolver.SenderNameFromChats | whatsapp-mcp-server/whatsapp.py:92-125 | Without nickname or contact: an exact chat match gives its name (the JID if the name is empty), and no substring search happens. Only then does the first chat whose JID contains the phone part decide. With neither, the result is the JID. |
| Resolver.SenderNameOnFailure | whatsapp-mcp-server/whatsapp.py:127-129 | A failing whatsapp.db makes the name the JID. A failing messages.db makes the contact row, or else the JID, decide. |
| Resolver.GetContactByJid | whatsapp-mcp-server/whatsapp.py:866-930 | A found contact has the asked JID, its phone part and the stored nickname, and a set nickname is its name. There is none exactly when whatsapp.db fails, or when no contact row has the JID and no usable non-group chat with it exists. |
| Resolver.ContactByJidName | whatsapp-mcp-server/whatsapp.py:873-899 | From a contact row, the whole record is built, and the name is the first non-empty of nickname, full, push, first and business name, else the phone part. |
| Resolver.ContactByJidFromChat | whatsapp-mcp-server/whatsapp.py:902-924 | Without a contact row, a group JID finds nothing. A non-group chat stands in with empty name columns, named by nickname, chat name, then phone part. |
| Resolver.ContactByPhoneFallback | whatsapp-mcp-server/whatsapp.py:950-968 | The partial match returns a non-group chat whose JID contains the number, named by its chat name or else its phone part, with no nickname. There is none exactly when messages.db fails or no such chat exists. |
| Resolver.GetContactByPhone | whatsapp-mcp-server/whatsapp.py:933-974 | The result is the first of `n@s.whatsapp.net`, `n@c.us`, `n` that resolves, with all earlier candidates unresolved. When none resolves, it is the partial chat match. |
| Resolver.ContactFromColumns | whatsapp-mcp-server/whatsapp.py:501-520 | The record built from a selected row keeps that row's order key. |
| Resolver.SearchContacts | whatsapp-mcp-server/whatsapp.py:465-529 | `search_contacts` returns at most 50 contacts. |
| Resolver.SearchRowFrom | whatsapp-mcp-server/whatsapp.py:476-499 | Every selected row is the columns of a stored contact row that matches the query. |
| Resolver.SearchContactsSorted | whatsapp-mcp-server/whatsapp.py:491-497 | Results are in the order of the CASE key: full, else push, else first name, else JID. |
| Resolver.SearchContactsDistinct | whatsapp-mcp-server/whatsapp.py:477 | No contact is listed twice. |
| Resolver.SearchContactsFrom | whatsapp-mcp-server/whatsapp.py:476-520 | Every listed contact is a non-group contact row matching the query, with no nickname and the display name `full or push or first or business or phone`. |
| Resolver.MatchSelected | whatsapp-mcp-server/whatsapp.py:476-490 | A matching contact row survives the WHERE clause and the DISTINCT. |
| Resolver.SearchComplete | whatsapp-mcp-server/whatsapp.py:476-520 | When at most 50 distinct rows match, every matching contact is listed. |
| Resolver.ListAllContacts | whatsapp-mcp-server/whatsapp.py:977-1029 | `list_all_contacts` returns at most `limit` contacts. |
| Resolver.ListAllContactsSorted | whatsapp-mcp-server/whatsapp.py:990-996 | Results are in the order of the CASE key. |
| Resolver.ListAllContactsFrom | whatsapp-mcp-server/whatsapp.py:986-1020 | Every listed contact comes from a non-group contact row, has no nickname, and has the display name of the `or` chain. |
| Resolver.ListAllContactsComplete | whatsapp-mcp-server/whatsapp.py:986-1020 | With no limit, or one that covers every person row, every non-group contact row is listed. |
| ContactFormat.FormatContactInfo | whatsapp-mcp-server/whatsapp.py:1032-1052 | The text is the name, phone and JID lines followed by exactly the lines of `Details`, each once, in print order. So it starts with the header and ends with the nickname line when there is a nickname. |
| ContactFormat.Details | whatsapp-mcp-server/whatsapp.py:1037-1050 | A line is printed exactly when its condition holds: full, first and display name when non-empty and different from the contact's name, business name and nickname when non-empty. It carries that column's value, and the lines come in the order Full Name, First Name, Display Name, Business, Nickname. |
| ContactFormat.DetailsOfMembers | whatsapp-mcp-server/whatsapp.py:1037-1050 | Over any list of fields, a line is present exactly when its field is listed and shown, with that column's value. |
| ContactFormat.DetailsOfOrdered | whatsapp-mcp-server/whatsapp.py:1037-1050 | Fields in increasing print order give lines in increasing print order. |
| ContactFormat.FormatContactInfoPlain | whatsapp-mcp-server/whatsapp.py:1036-1052 | A contact without a nickname, business name or name column that differs from its display name is rendered as the header alone. |
| ContextWindow.GetMessageContext | whatsapp-mcp-server/whatsapp.py:282-372 | A failing database raises. An unknown id is a "not found" error. Otherwise the target is the first joined message with the id, and the context is exactly the two neighbour queries around that target (`ContextAround`). |
| ContextWindow.ContextSound | whatsapp-mcp-server/whatsapp.py:316-346 | Every earlier message is a stored message of the target's chat that is strictly older, newest first. Every later message is strictly newer, oldest first. |
| ContextWindow.ContextSizes | whatsapp-mcp-server/whatsapp.py:316-346 | Each side holds exactly `min(limit, candidates)` messages, or all of them when the limit is negative. |
| ContextWindow.ContextNearest | whatsapp-mcp-server/whatsapp.py:316-346 | The earlier side keeps the newest earlier messages and the later side the oldest later ones. No candidate left out is nearer than one kept. |
| ContextWindow.ContextAtEdges | whatsapp-mcp-server/whatsapp.py:316-346 | A chat's first message has no earlier context, and its last no later context. |
| ContextWindow.ContextAround | whatsapp-mcp-server/whatsapp.py:316-346 | The two neighbour queries keep the target and hold at most `before` and `after` messages; `ContextSound`, `ContextSizes` and `ContextNearest` state the rest. |
| ContextWindow.ContextExample | whatsapp-mcp-server/whatsapp.py:282-365 | A sanity example only, covered by `ContextSizes` and `ContextNearest`: in a chat at times 1, 2 and 3, one message of context on each side of the middle message is the first and the last message. |
| MessageQuery.WhereClauses | whatsapp-mcp-server/whatsapp.py:200-236 | The clause list fails exactly when a given date does not parse, with that date's error. Otherwise a message satisfies all clauses exactly when it meets every filter supplied. |
| MessageQuery.MatchingIgnoresPage | whatsapp-mcp-server/whatsapp.py:222-240 | The set of matches does not depend on the page asked for. |
| MessageQuery.SpliceContext | whatsapp-mcp-server/whatsapp.py:260-267 | The splice loop yields each result's earlier context, the result and its later context, result by result. |
| MessageQuery.ContextBlockHas | whatsapp-mcp-server/whatsapp.py:264-267 | Each result lies in its own block, which holds at most `before + 1 + after` messages. |
| MessageQuery.ListMessages | whatsapp-mcp-server/whatsapp.py:164-279 | A failing database yields `[]`. A bad date raises its ValueError. Otherwise the result is the requested newest-first page of matches. When context is asked for, it is spliced with the corrected splice, where each result gets its own chat's context. |
| MessageQuery.ResultPage | whatsapp-mcp-server/whatsapp.py:197-258 | One newest-first page of matches, at most `limit` long; `ResultPageSound` and `ResultPageOffset` state the rest. |
| MessageQuery.Spliced | whatsapp-mcp-server/whatsapp.py:260-267 | The intended splice; `SpliceContext`, `SplicedAppend` and `SplicedHasResults` state it. |
| MessageQuery.ListedMessages | whatsapp-mcp-server/whatsapp.py:197-272 | The page, spliced when context is asked for; `ListMessages` states its result. |
| MessageQuery.SplicedById | whatsapp-mcp-server/whatsapp.py:262-267 | The splice as written, by id alone; `SplicedByIdWrongTarget` and `SplicedByIdAgrees` state it. |
| MessageQuery.ListedMessagesById | whatsapp-mcp-server/whatsapp.py:197-272 | The listing as written, with the splice by id; `ListedByIdAgrees` relates it to the corrected one. |
| MessageQuery.ListedByIdAgrees | whatsapp-mcp-server/whatsapp.py:197-272 | When ids are distinct, the listing as written succeeds and equals the corrected listing. |
| MessageQuery.ResultPageSound | whatsapp-mcp-server/whatsapp.py:197-241 | Every message on a page is a stored message that meets every filter. The page is newest first and holds at most `limit` messages. |
| MessageQuery.ResultPageOffset | whatsapp-mcp-server/whatsapp.py:238-241 | A page is the ordered matches starting `page*limit` into the newest-first order. |
| MessageQuery.MatchIsSelected | whatsapp-mcp-server/whatsapp.py:197-236 | Every stored message that meets the filters is a match. |
| MessageQuery.PageOfMatch | whatsapp-mcp-server/whatsapp.py:238-241 | The k-th match in newest-first order is on page `k / limit`. |
| MessageQuery.MatchOnSomePage | whatsapp-mcp-server/whatsapp.py:197-241 | With a positive limit, every matching message is on some page. |
| MessageQuery.ResultPagesConcatenate | whatsapp-mcp-server/whatsapp.py:238-241 | Pages 0 to p read in turn are exactly the first `(p+1)*limit` matches. |
| MessageQuery.SplicedAppend | whatsapp-mcp-server/whatsapp.py:262-267 | Splicing a concatenation is the concatenation of the splices; blocks are neither merged nor deduplicated. |
| MessageQuery.SplicedHasResults | whatsapp-mcp-server/whatsapp.py:262-267 | Every result is in the spliced output, so the output is never shorter than the results. |
| MessageQuery.SplicedByIdWrongTarget | whatsapp-mcp-server/whatsapp.py:262-267 | As written, with two chats sharing a message id, a result from the second chat is replaced by the first chat's message. |
| MessageQuery.LookupFindsSelf | whatsapp-mcp-server/whatsapp.py:293-302 | When ids are distinct, a lookup by a joined message's id finds that message. |
| MessageQuery.LookupContext | whatsapp-mcp-server/whatsapp.py:282-365 | When ids are distinct, the context fetched by a message's id is that message's own context. |
| MessageQuery.SplicedByIdAgrees | whatsapp-mcp-server/whatsapp.py:260-267 | When ids are distinct, the splice as written equals the intended splice. |
| ChatQuery.LeftJoin | whatsapp-mcp-server/whatsapp.py:415-419 | `chats LEFT JOIN messages` has at least one row per chat; `LeftJoinSound` and `LeftJoinComplete` state which. |
| ChatQuery.ChatRows | whatsapp-mcp-server/whatsapp.py:404-422 | At least one row per chat, and exactly one without the join; `ChatRowsSound` and `ChatRowsComplete` state which. |
| ChatQuery.LeftJoinRows | whatsapp-mcp-server/whatsapp.py:415-419 | Each chat has at least one LEFT JOIN row, and every row carries that chat's columns. |
| ChatQuery.LeftJoinRowSound | whatsapp-mcp-server/whatsapp.py:415-419 | A chat's row has NULL message columns only when the chat has no message at its last time. Otherwise it carries such a message. |
| ChatQuery.LeftJoinSound | whatsapp-mcp-server/whatsapp.py:415-419 | Every LEFT JOIN row belongs to a stored chat. |
| ChatQuery.LeftJoinComplete | whatsapp-mcp-server/whatsapp.py:415-419 | Every stored chat contributes all of its rows. |
| ChatQuery.BareRows | whatsapp-mcp-server/whatsapp.py:420-422 | Without the join there is one row per chat, with NULL message columns. |
| ChatQuery.ChatRowsSound | whatsapp-mcp-server/whatsapp.py:404-422 | Every selectable row belongs to a stored chat, either bare or with one of its messages at its last time. |
| ChatQuery.ChatRowsComplete | whatsapp-mcp-server/whatsapp.py:404-422 | Every stored chat has a selectable row. |
| ChatQuery.ListChats | whatsapp-mcp-server/whatsapp.py:375-462 | `list_chats` returns at most `limit` chats. |
| ChatQuery.OrderChats | whatsapp-mcp-server/whatsapp.py:432-433 | `ORDER BY` for `list_chats`; `OrderChatsCorrect` and `OrderChatsMembers` state it. |
| ChatQuery.OrderChatsCorrect | whatsapp-mcp-server/whatsapp.py:432-433 | The ORDER BY is a permutation: newest activity first for `last_active`, by name otherwise. |
| ChatQuery.OrderChatsMembers | whatsapp-mcp-server/whatsapp.py:432-433 | Ordering neither adds nor drops rows. |
| ChatQuery.ListChatsOrdered | whatsapp-mcp-server/whatsapp.py:432-438 | Every page is in the chosen order. |
| ChatQuery.ListChatsSound | whatsapp-mcp-server/whatsapp.py:404-455 | Every listed chat is a selectable row whose name or JID matches a given query. |
| ChatQuery.ListChatsComplete | whatsapp-mcp-server/whatsapp.py:404-455 | With no limit, every stored chat matching the query has a listed row. |
| ChatQuery.ListChatsAsWritten | whatsapp-mcp-server/whatsapp.py:404-459 | `list_chats` as written; `ListChatsAsWrittenLosesChats` and `ListChatsAsWrittenWithLast` state it. |
| ChatQuery.ListChatsAsWrittenLosesChats | whatsapp-mcp-server/whatsapp.py:404-422 | As written, a stored chat is listed by the intended query but not by the written one when no last message is asked for. |
| ChatQuery.ListChatsAsWrittenWithLast | whatsapp-mcp-server/whatsapp.py:404-419 | With the last message asked for, the written query is the intended one. |
| ChatQuery.GetChat | whatsapp-mcp-server/whatsapp.py:632-677 | A found chat has the asked JID and is a selectable row. |
| ChatQuery.GetChatFound | whatsapp-mcp-server/whatsapp.py:638-661 | `get_chat` finds a chat exactly when one is stored under the JID, and the result is that chat's row. |
| ChatQuery.GetChatAsWritten | whatsapp-mcp-server/whatsapp.py:638-674 | `get_chat` as written; `GetChatAsWrittenLosesChat` states it. |
| ChatQuery.GetChatAsWrittenLosesChat | whatsapp-mcp-server/whatsapp.py:638-661 | As written, a stored chat is not found without its last message. |
| ChatQuery.GetDirectChatByContact | whatsapp-mcp-server/whatsapp.py:680-720 | A found chat is a non-group chat whose JID contains the number. |
| ChatQuery.DirectChatIsFirstChat | whatsapp-mcp-server/whatsapp.py:686-699 | The first matching LEFT JOIN row belongs to the first matching chat, and there is one exactly when there is such a chat. |
| ChatQuery.DirectChatAgreesWithPhoneFallback | whatsapp-mcp-server/whatsapp.py:686-699 | `get_direct_chat_by_contact` finds a chat exactly when the partial match of `get_contact_by_phone` finds one, and both find the same JID. |
| ChatQuery.InnerJoin | whatsapp-mcp-server/whatsapp.py:544-554 | `chats JOIN messages` has at most one row per message; `InnerJoinSound` and `InnerJoinComplete` state which. |
| ChatQuery.InnerJoinComplete | whatsapp-mcp-server/whatsapp.py:544-554 | Every stored message of a stored chat is a join row, paired with that chat. |
| ChatQuery.InnerJoinSound | whatsapp-mcp-server/whatsapp.py:544-554 | Every row of `chats JOIN messages` is a stored message with its stored chat. |
| ChatQuery.GetContactChats | whatsapp-mcp-server/whatsapp.py:532-580 | `get_contact_chats` returns at most `limit` chats. |
| ChatQuery.ContactChatsOrdered | whatsapp-mcp-server/whatsapp.py:545-556 | No row appears twice, and the latest chat comes first. |
| ChatQuery.ContactChatsSound | whatsapp-mcp-server/whatsapp.py:544-557 | Every listed row is a stored chat paired with a stored message that the JID sent or that lies in the JID's chat. |
| ChatQuery.ContactChatsComplete | whatsapp-mcp-server/whatsapp.py:544-557 | With no limit, every stored message that the JID sent or that lies in the JID's chat is listed, paired with its stored chat. |
| ChatQuery.GetLastInteraction | whatsapp-mcp-server/whatsapp.py:583-629 | `get_last_interaction`, returning the message rather than its text; its contract is `ChatQuery.LastInteractionIsLatest`. |
| ChatQuery.LastInteractionIsLatest | whatsapp-mcp-server/whatsapp.py:583-629 | There is none exactly when no stored message involves the JID. Otherwise it is such a message, and no other is newer. |

## Left out

- Sending and downloading are not part of this model, because each is a call into the bridge's HTTP API: `send_message`, `send_file`, `send_audio_message` and `download_media` (whatsapp.py:722-864).
- The debug `print`s and the `sqlite_master` / `COUNT(*)` probes in `list_messages` and `list_chats` are left out. They only print.
- Connections, `close` and concurrency are left out. Each call sees one consistent snapshot of the tables.
- Date values are integers, and ISO-8601 parsing is the `parse` parameter.
- `format_message`, `format_messages_list` and the date rendering are left out, because each is text formatting.
- MessageQuery.ListMessages: returns the messages that would be formatted, not the formatted text. It uses the corrected splice, in which each result gets its own chat's context. The splice as written, by id alone, is `SplicedById`, and the listing built on it is `ListedMessagesById`. With distinct message ids the two agree (`ListedByIdAgrees`).
- A `messages.db` that opens but lacks a table is not modelled. There the `sqlite_master` probe succeeds, so `list_messages` checks its dates before the main query fails. Such a file is neither `Available` nor `Unavailable`.
- ChatQuery.GetLastInteraction: returns the message, not its formatted string. Its contract is `ChatQuery.LastInteractionIsLatest`.
- Text.Lower: folds ASCII letters only. `LIKE` wildcards (`%`, `_`) inside a user query are taken literally.
- NULL `chats.name` and `last_message_time` are not modelled. The bridge always writes both.
- Rows with equal sort keys keep table row order. SQLite leaves that order undefined.
- MessageQuery.ContextBlockHas: bounds each block. The total length of a spliced result is not stated.
- The message table's primary key `(id, chat_jid)` and the `contact_nicknames` schema are assumed. The schema lives in the bridge's startup code, which is not part of this model.
- Resolver.SearchContacts: its own contract bounds the length only. Order, distinctness, soundness and completeness are in `SearchContactsSorted`, `SearchContactsDistinct`, `SearchContactsFrom`, `SearchComplete`.
- Resolver.ListAllContacts: its own contract bounds the length only. The rest is in `ListAllContactsSorted`, `ListAllContactsFrom`, `ListAllContactsComplete`.
- ChatQuery.ListChats: its own contract bounds the length only. The rest is in `ListChatsOrdered`, `ListChatsSound`, `ListChatsComplete`.
- ChatQuery.GetContactChats: its own contract bounds the length only. The rest is in `ContactChatsOrdered`, `ContactChatsSound`, `ContactChatsComplete`.
- whatsapp-bridge/internal/whatsapp/client.go and whatsapp-webhook-ui/script.js are not part of this model. They hold event handling and UI.

### Orderings as the code has them

- `list_chats` sorts by name with `ORDER BY chats.name` only. There is no JID tie-break.
- `list_all_contacts` orders by `full_name`, `push_name`, `first_name` and then `their_jid`. The business name is not part of the key, and unnamed contacts sort by JID among the named ones rather than last.

## Findings

| source | as written | input that shows it | evidently intended | confidence | as-written member | corrected member |
|---|---|---|---|---|---|---|
| whatsapp-mcp-server/whatsapp.py:404-422 | With `include_last_message=False` the select list still names `messages.content`, `messages.sender` and `messages.is_from_me`, but there is no join. SQLite reports "no such column", the error is caught, and `[]` is returned. | One stored chat `123@s.whatsapp.net`, `list_chats(include_last_message=False)` | Every chat, with empty last-message fields | not executed | ChatQuery.ListChatsAsWrittenLosesChats | ChatQuery.ListChatsComplete |
| whatsapp-mcp-server/whatsapp.py:638-661 | The same select list without the join in `get_chat` always yields `None` when `include_last_message=False`. | One stored chat `123@s.whatsapp.net`, `get_chat("123@s.whatsapp.net", False)` | The chat, with empty last-message fields | not executed | ChatQuery.GetChatAsWrittenLosesChat | ChatQuery.GetChatFound |
| whatsapp-mcp-server/whatsapp.py:262-267 | The context of each result is fetched by message id alone, and the first row with that id becomes the target. | Two chats each holding a message with id `x`. `list_messages(chat_jid=<second chat>, include_context=True, context_before=0, context_after=0)` | The result's own message and its own chat's context | not executed | MessageQuery.SplicedByIdWrongTarget | MessageQuery.SpliceContext |
| whatsapp-bridge/internal/database/messages.go:45-57 | `GetMessages` never checks `rows.Err()` after `for rows.Next()`. An iteration error ends the loop, and the rows read so far are returned with a nil error. | A chat with two messages, where iteration fails before the second row | The iteration error is returned | not executed | BridgeStore.MessageStore.GetMessages | BridgeStore.MessageStore.GetMessagesChecked |
| whatsapp-bridge/internal/database/messages.go:68-79 | `GetChats` never checks `rows.Err()` either, so an iteration error returns a partial map with a nil error. | Two stored chats, where iteration fails before the second row | The iteration error is returned | not executed | BridgeStore.MessageStore.GetChats | BridgeStore.MessageStore.GetChatsChecked |
