/** Contact and name resolution (whatsapp-mcp-server/whatsapp.py): merges the
    nickname overrides and the chat names of messages.db with the contact rows
    of whatsapp.db. */
module Resolver {
  import opened Common
  import opened Text
  import opened Select
  import opened Tables
  import opened Nicknames

  const GroupSuffix := "@g.us"
  const UserSuffix := "@s.whatsapp.net"
  const LegacyUserSuffix := "@c.us"

  /** `Chat.is_group`: the JID ends with the group domain. */
  predicate IsGroup(jid: string)
  {
    EndsWith(jid, GroupSuffix)
  }

  /** The SQL condition `jid NOT LIKE '%@g.us'`. */
  predicate NotGroupLike(jid: string)
  {
    !LikeSuffix(jid, GroupSuffix)
  }

  /** JIDs built with the group domain are groups; JIDs built with either
      user domain are not. */
  lemma GroupClassification(phone: string)
    ensures IsGroup(phone + GroupSuffix)
    ensures !IsGroup(phone + UserSuffix) && !IsGroup(phone + LegacyUserSuffix)
  {
    var u := phone + UserSuffix;
    assert u[|u| - 5..] == UserSuffix[|UserSuffix| - 5..];
    var l := phone + LegacyUserSuffix;
    assert l[|l| - 5..] == LegacyUserSuffix;
  }

  /** Every JID the SQL filter lets through as a person is a person for
      `is_group` as well. */
  lemma NotGroupLikeIsPerson(jid: string)
    requires NotGroupLike(jid)
    ensures !IsGroup(jid)
  {
    if IsGroup(jid) { EndsWithLikeSuffix(jid, GroupSuffix); }
  }

  /** The value Python's `c0 or c1 or ... or fallback` picks: the first
      candidate that is present and non-empty, else the fallback. */
  function FirstTruthy(cands: seq<Option<string>>, fallback: string): (r: string)
    ensures r == fallback || r != ""
  {
    if cands == [] then fallback
    else if Truthy(cands[0]) then cands[0].value
    else FirstTruthy(cands[1..], fallback)
  }

  /** The choice is the value of the first truthy candidate, and the
      fallback exactly when no candidate is truthy. */
  lemma {:induction false} FirstTruthyPriority(cands: seq<Option<string>>, fallback: string)
    ensures (forall i :: 0 <= i < |cands| ==> !Truthy(cands[i])) ==> FirstTruthy(cands, fallback) == fallback
    ensures forall i :: 0 <= i < |cands| && Truthy(cands[i]) && (forall j :: 0 <= j < i ==> !Truthy(cands[j])) ==>
      FirstTruthy(cands, fallback) == cands[i].value
  {
    if cands != [] {
      FirstTruthyPriority(cands[1..], fallback);
      if forall i :: 0 <= i < |cands| ==> !Truthy(cands[i]) {
        forall i | 0 <= i < |cands[1..]| ensures !Truthy(cands[1..][i]) {
          assert cands[1..][i] == cands[i + 1];
        }
      }
      forall i | 0 <= i < |cands| && Truthy(cands[i]) && (forall j :: 0 <= j < i ==> !Truthy(cands[j]))
        ensures FirstTruthy(cands, fallback) == cands[i].value
      {
        if i > 0 {
          assert forall j :: 0 <= j < i - 1 ==> !Truthy(cands[1..][j]) by {
            forall j | 0 <= j < i - 1 ensures !Truthy(cands[1..][j]) { assert cands[1..][j] == cands[j + 1]; }
          }
          assert cands[1..][i - 1] == cands[i];
        }
      }
    }
  }

  lemma FirstTruthyCons(x: Option<string>, rest: seq<Option<string>>, fallback: string)
    ensures FirstTruthy([x] + rest, fallback) == OrElse(x, FirstTruthy(rest, fallback))
  {
    assert ([x] + rest)[0] == x && ([x] + rest)[1..] == rest;
  }

  /** `full_name or push_name or first_name or business_name or fallback`. */
  function ContactName(full: Option<string>, push: Option<string>, first: Option<string>,
                       business: Option<string>, fallback: string): string
  {
    OrElse(full, OrElse(push, OrElse(first, OrElse(business, fallback))))
  }

  /** The chain of `or`s is the first-truthy choice in priority order. */
  lemma ContactNamePriority(full: Option<string>, push: Option<string>, first: Option<string>,
                            business: Option<string>, fallback: string)
    ensures ContactName(full, push, first, business, fallback) == FirstTruthy([full, push, first, business], fallback)
  {
    FirstTruthyCons(business, [], fallback);
    FirstTruthyCons(first, [business], fallback);
    FirstTruthyCons(push, [first, business], fallback);
    FirstTruthyCons(full, [push, first, business], fallback);
    assert [business] == [business] + [];
    assert [first, business] == [first] + [business];
    assert [push, first, business] == [push] + [first, business];
    assert [full, push, first, business] == [full] + [push, first, business];
  }

  /** `get_contact_nickname`: None when messages.db fails. */
  function NicknameLookup(msgDb: Db<MessagesDb>, jid: string): Option<string>
  {
    if msgDb.Unavailable? then None else NicknameOf(msgDb.tables.nicknames, jid)
  }

  /** The condition `their_jid = jid`. */
  function TheirJidIs(jid: string): ContactRow -> bool
  {
    (row: ContactRow) => row.theirJid == jid
  }

  /** `SELECT ... FROM whatsmeow_contacts WHERE their_jid = ? LIMIT 1`. */
  function ContactOf(rows: seq<ContactRow>, jid: string): (r: Option<ContactRow>)
    ensures r.Some? ==> r.value in rows && r.value.theirJid == jid
    ensures r.None? <==> forall i :: 0 <= i < |rows| ==> rows[i].theirJid != jid
  {
    First(rows, TheirJidIs(jid))
  }

  /** The condition `jid LIKE '%pattern%'`. */
  function JidLike(pattern: string): ChatRow -> bool
  {
    (c: ChatRow) => Like(c.jid, pattern)
  }

  /** Chat-table fallback of `get_sender_name`: the row with exactly this
      JID, or, only when there is none, the first row whose JID contains the
      phone part; its name when non-empty, else the JID itself. */
  function ChatNameFallback(chats: seq<ChatRow>, jid: string): string
  {
    match FindChat(chats, jid)
    case Some(c) => if c.name != "" then c.name else jid
    case None =>
      match First(chats, JidLike(PhonePart(jid)))
      case Some(c) => if c.name != "" then c.name else jid
      case None => jid
  }

  /** `get_sender_name`. */
  function GetSenderName(msgDb: Db<MessagesDb>, waDb: Db<seq<ContactRow>>, jid: string): (r: string)
    ensures jid != "" ==> r != ""
  {
    var nickname := NicknameLookup(msgDb, jid);
    if Truthy(nickname) then nickname.value
    else if waDb.Unavailable? then jid
    else
      match ContactOf(waDb.tables, jid)
      case Some(row) => ContactName(row.fullName, row.pushName, row.firstName, row.businessName, jid)
      case None => if msgDb.Unavailable? then jid else ChatNameFallback(msgDb.tables.chats, jid)
  }

  /** A non-empty nickname wins whatever the contact rows and chats hold. */
  lemma SenderNameNicknameWins(m1: MessagesDb, m2: MessagesDb, wa1: Db<seq<ContactRow>>,
                               wa2: Db<seq<ContactRow>>, jid: string)
    requires m1.nicknames == m2.nicknames
    requires Truthy(NicknameOf(m1.nicknames, jid))
    ensures GetSenderName(Available(m1), wa1, jid) == GetSenderName(Available(m2), wa2, jid)
    ensures GetSenderName(Available(m1), wa1, jid) == m1.nicknames[jid].nickname
  {
  }

  /** Without a nickname, a contact row decides the name: the first
      non-empty of full, push, first and business name, else the JID; the
      chats table is not consulted. */
  lemma SenderNameFromContact(m1: MessagesDb, m2: MessagesDb, rows: seq<ContactRow>, jid: string)
    requires m1.nicknames == m2.nicknames
    requires !Truthy(NicknameOf(m1.nicknames, jid))
    requires ContactOf(rows, jid).Some?
    ensures GetSenderName(Available(m1), Available(rows), jid) == GetSenderName(Available(m2), Available(rows), jid)
    ensures var row := ContactOf(rows, jid).value;
      GetSenderName(Available(m1), Available(rows), jid) ==
        FirstTruthy([row.fullName, row.pushName, row.firstName, row.businessName], jid)
  {
    var row := ContactOf(rows, jid).value;
    ContactNamePriority(row.fullName, row.pushName, row.firstName, row.businessName, jid);
  }

  /** Without a nickname or contact row: an exact chat match decides (its
      name, or the JID when the name is empty, with no substring search);
      only without one is the first chat whose JID contains the phone part
      used; with neither, the JID itself. */
  lemma SenderNameFromChats(m: MessagesDb, rows: seq<ContactRow>, jid: string)
    requires !Truthy(NicknameOf(m.nicknames, jid))
    requires ContactOf(rows, jid).None?
    ensures var r := GetSenderName(Available(m), Available(rows), jid);
      && (FindChat(m.chats, jid).Some? && FindChat(m.chats, jid).value.name != "" ==> r == FindChat(m.chats, jid).value.name)
      && (FindChat(m.chats, jid).Some? && FindChat(m.chats, jid).value.name == "" ==> r == jid)
      && (FindChat(m.chats, jid).None? ==>
            (forall c :: c in m.chats ==> !Like(c.jid, PhonePart(jid))) ==> r == jid)
      && (FindChat(m.chats, jid).None? && (exists c :: c in m.chats && Like(c.jid, PhonePart(jid))) ==>
            exists k :: 0 <= k < |m.chats| && Like(m.chats[k].jid, PhonePart(jid)) &&
              (forall j :: 0 <= j < k ==> !Like(m.chats[j].jid, PhonePart(jid))) &&
              r == (if m.chats[k].name != "" then m.chats[k].name else jid))
  {
    if FindChat(m.chats, jid).None? {
      var hit := First(m.chats, JidLike(PhonePart(jid)));
      if hit.Some? {
        var k :| 0 <= k < |m.chats| && m.chats[k] == hit.value && JidLike(PhonePart(jid))(m.chats[k]) &&
          forall j :: 0 <= j < k ==> !JidLike(PhonePart(jid))(m.chats[j]);
      }
    }
  }

  /** A failing database never raises: the JID itself is the name. */
  lemma SenderNameOnFailure(msgDb: Db<MessagesDb>, rows: seq<ContactRow>, jid: string)
    requires !Truthy(NicknameLookup(msgDb, jid))
    ensures GetSenderName(msgDb, Unavailable, jid) == jid
    ensures msgDb.Unavailable? ==>
      (GetSenderName(msgDb, Available(rows), jid) ==
         if ContactOf(rows, jid).Some? then
           FirstTruthy([ContactOf(rows, jid).value.fullName, ContactOf(rows, jid).value.pushName,
                        ContactOf(rows, jid).value.firstName, ContactOf(rows, jid).value.businessName], jid)
         else jid)
  {
    if ContactOf(rows, jid).Some? {
      var row := ContactOf(rows, jid).value;
      ContactNamePriority(row.fullName, row.pushName, row.firstName, row.businessName, jid);
    }
  }

  /** The condition `jid = ? AND jid NOT LIKE '%@g.us'`. */
  function PersonChatIs(jid: string): ChatRow -> bool
  {
    (c: ChatRow) => c.jid == jid && NotGroupLike(c.jid)
  }

  /** `get_contact_by_jid`. */
  function GetContactByJid(msgDb: Db<MessagesDb>, waDb: Db<seq<ContactRow>>, jid: string): (r: Option<Contact>)
    ensures r.Some? ==> r.value.jid == jid && r.value.phoneNumber == PhonePart(jid)
    ensures r.Some? ==> r.value.nickname == NicknameLookup(msgDb, jid)
    ensures r.Some? && Truthy(NicknameLookup(msgDb, jid)) ==> r.value.name == NicknameLookup(msgDb, jid).value
    ensures r.None? <==>
      waDb.Unavailable? ||
      (ContactOf(waDb.tables, jid).None? &&
       (msgDb.Unavailable? || forall c :: c in msgDb.tables.chats ==> !(c.jid == jid && NotGroupLike(c.jid))))
  {
    if waDb.Unavailable? then None
    else
      var nickname := NicknameLookup(msgDb, jid);
      match ContactOf(waDb.tables, jid)
      case Some(row) =>
        var phone := PhonePart(row.theirJid);
        Some(Contact(phone, OrElse(nickname, ContactName(row.fullName, row.pushName, row.firstName, row.businessName, phone)),
                     row.theirJid, row.firstName, row.fullName, row.pushName, row.businessName, nickname))
      case None =>
        if msgDb.Unavailable? then None
        else
          var hit := First(msgDb.tables.chats, PersonChatIs(jid));
          assert hit.None? <==> forall c :: c in msgDb.tables.chats ==> !(c.jid == jid && NotGroupLike(c.jid));
          match hit
          case None => None
          case Some(c) =>
            var phone := PhonePart(c.jid);
            Some(Contact(phone, OrElse(nickname, OrElse(Some(c.name), phone)), c.jid, None, None, None, None, nickname))
  }

  /** The display name of a contact found in whatsapp.db is the first
      non-empty of nickname, full, push, first and business name, else the
      phone part. */
  lemma ContactByJidName(msgDb: Db<MessagesDb>, rows: seq<ContactRow>, jid: string)
    requires ContactOf(rows, jid).Some?
    ensures var row := ContactOf(rows, jid).value;
      GetContactByJid(msgDb, Available(rows), jid) ==
        Some(Contact(PhonePart(jid),
                     FirstTruthy([NicknameLookup(msgDb, jid), row.fullName, row.pushName, row.firstName, row.businessName], PhonePart(jid)),
                     jid, row.firstName, row.fullName, row.pushName, row.businessName, NicknameLookup(msgDb, jid)))
  {
    var row := ContactOf(rows, jid).value;
    var phone := PhonePart(jid);
    ContactNamePriority(row.fullName, row.pushName, row.firstName, row.businessName, phone);
    FirstTruthyCons(NicknameLookup(msgDb, jid), [row.fullName, row.pushName, row.firstName, row.businessName], phone);
    assert [NicknameLookup(msgDb, jid), row.fullName, row.pushName, row.firstName, row.businessName] ==
      [NicknameLookup(msgDb, jid)] + [row.fullName, row.pushName, row.firstName, row.businessName];
  }

  /** Without a contact row only a chat that is not a group can stand in;
      its record has no name columns, and its display name is nickname, chat
      name, phone part in that order. */
  lemma ContactByJidFromChat(m: MessagesDb, rows: seq<ContactRow>, jid: string)
    requires ContactOf(rows, jid).None?
    ensures !NotGroupLike(jid) ==> GetContactByJid(Available(m), Available(rows), jid).None?
    ensures var r := GetContactByJid(Available(m), Available(rows), jid);
      r.Some? ==> r.value.firstName.None? && r.value.fullName.None? && r.value.pushName.None? &&
                  r.value.businessName.None? &&
                  (exists c :: c in m.chats && c.jid == jid &&
                     r.value.name == FirstTruthy([NicknameOf(m.nicknames, jid), Some(c.name)], PhonePart(jid)))
  {
    var r := GetContactByJid(Available(m), Available(rows), jid);
    if r.Some? {
      var c := First(m.chats, PersonChatIs(jid)).value;
      assert c in m.chats && c.jid == jid;
      FirstTruthyCons(Some(c.name), [], PhonePart(jid));
      FirstTruthyCons(NicknameOf(m.nicknames, jid), [Some(c.name)], PhonePart(jid));
      assert [Some(c.name)] == [Some(c.name)] + [];
      assert [NicknameOf(m.nicknames, jid), Some(c.name)] == [NicknameOf(m.nicknames, jid)] + [Some(c.name)];
    }
  }

  /** The JIDs `get_contact_by_phone` tries, in order. */
  function PhoneCandidates(phone: string): seq<string>
  {
    [phone + UserSuffix, phone + LegacyUserSuffix, phone]
  }

  /** The condition `jid LIKE '%phone%' AND jid NOT LIKE '%@g.us'`. */
  function PersonChatLike(phone: string): ChatRow -> bool
  {
    (c: ChatRow) => Like(c.jid, phone) && NotGroupLike(c.jid)
  }

  /** The partial match at the end of `get_contact_by_phone`. */
  function ContactByPhoneFallback(msgDb: Db<MessagesDb>, phone: string): (r: Option<Contact>)
    ensures r.Some? ==> Like(r.value.jid, phone) && NotGroupLike(r.value.jid)
    ensures r.Some? ==> r.value.nickname.None? && r.value.phoneNumber == PhonePart(r.value.jid)
    ensures r.Some? ==> msgDb.Available?
    ensures r.Some? && msgDb.Available? ==>
      exists c :: (c in msgDb.tables.chats && c.jid == r.value.jid &&
                   r.value.name == (if c.name != "" then c.name else PhonePart(c.jid)))
    ensures r.None? <==> msgDb.Unavailable? || forall c :: c in msgDb.tables.chats ==> !(Like(c.jid, phone) && NotGroupLike(c.jid))
  {
    if msgDb.Unavailable? then None
    else
      var hit := First(msgDb.tables.chats, PersonChatLike(phone));
      assert hit.None? <==> forall c :: c in msgDb.tables.chats ==> !(Like(c.jid, phone) && NotGroupLike(c.jid));
      match hit
      case None => None
      case Some(c) =>
        var actual := PhonePart(c.jid);
        Some(Contact(actual, OrElse(Some(c.name), actual), c.jid, None, None, None, None, None))
  }

  /** `get_contact_by_phone`: the first of the candidate JIDs that
      `get_contact_by_jid` resolves, else the first non-group chat whose JID
      contains the phone number. */
  method GetContactByPhone(msgDb: Db<MessagesDb>, waDb: Db<seq<ContactRow>>, phone: string) returns (r: Option<Contact>)
    ensures (exists i :: 0 <= i < 3 && GetContactByJid(msgDb, waDb, PhoneCandidates(phone)[i]).Some?) ==>
      exists i :: 0 <= i < 3 && r == GetContactByJid(msgDb, waDb, PhoneCandidates(phone)[i]) && r.Some? &&
        forall j :: 0 <= j < i ==> GetContactByJid(msgDb, waDb, PhoneCandidates(phone)[j]).None?
    ensures (forall i :: 0 <= i < 3 ==> GetContactByJid(msgDb, waDb, PhoneCandidates(phone)[i]).None?) ==>
      r == ContactByPhoneFallback(msgDb, phone)
  {
    var candidates := PhoneCandidates(phone);
    var i := 0;
    while i < |candidates|
      invariant 0 <= i <= |candidates|
      invariant forall j :: 0 <= j < i ==> GetContactByJid(msgDb, waDb, candidates[j]).None?
    {
      var contact := GetContactByJid(msgDb, waDb, candidates[i]);
      if contact.Some? {
        return contact;
      }
      i := i + 1;
    }
    r := ContactByPhoneFallback(msgDb, phone);
  }

  /** The columns `search_contacts` selects (DISTINCT applies to these). */
  datatype ContactColumns = ContactColumns(
    theirJid: string, firstName: Option<string>, fullName: Option<string>,
    pushName: Option<string>, businessName: Option<string>)

  function Columns(row: ContactRow): ContactColumns
  {
    ContactColumns(row.theirJid, row.firstName, row.fullName, row.pushName, row.businessName)
  }

  /** `COALESCE(column, '')`. */
  function Coalesce(o: Option<string>): string
  {
    if o.Some? then o.value else ""
  }

  /** The WHERE clause of `search_contacts`. */
  predicate SearchMatches(row: ContactRow, query: string)
  {
    && (|| Like(Coalesce(row.firstName), query) || Like(Coalesce(row.fullName), query)
        || Like(Coalesce(row.pushName), query) || Like(Coalesce(row.businessName), query)
        || Like(row.theirJid, query))
    && NotGroupLike(row.theirJid)
  }

  function SearchCondition(query: string): ContactRow -> bool
  {
    (row: ContactRow) => SearchMatches(row, query)
  }

  /** The CASE expression both contact listings order by: full, push or
      first name when non-empty (business name is not part of it), else the
      JID. */
  function ContactOrderText(full: Option<string>, push: Option<string>, first: Option<string>, jid: string): string
  {
    if Truthy(full) then full.value else if Truthy(push) then push.value else if Truthy(first) then first.value else jid
  }

  function ColumnsKey(c: ContactColumns): SortKey
  {
    TextKey(ContactOrderText(c.fullName, c.pushName, c.firstName, c.theirJid))
  }

  /** The same order key read back from a built `Contact`. */
  function ContactKey(c: Contact): SortKey
  {
    TextKey(ContactOrderText(c.fullName, c.pushName, c.firstName, c.jid))
  }

  /** The record built for a listed contact row (no nickname is attached). */
  function ContactFromColumns(c: ContactColumns): (r: Contact)
    ensures ContactKey(r) == ColumnsKey(c)
  {
    var phone := PhonePart(c.theirJid);
    Contact(phone, ContactName(c.fullName, c.pushName, c.firstName, c.businessName, phone),
            c.theirJid, c.firstName, c.fullName, c.pushName, c.businessName, None)
  }

  function ContactsFromColumns(cs: seq<ContactColumns>): (r: seq<Contact>)
    ensures |r| == |cs| && forall i :: 0 <= i < |cs| ==> r[i] == ContactFromColumns(cs[i])
  {
    seq(|cs|, i requires 0 <= i < |cs| => ContactFromColumns(cs[i]))
  }

  function ColumnsOf(rows: seq<ContactRow>): (r: seq<ContactColumns>)
    ensures |r| == |rows| && forall i :: 0 <= i < |rows| ==> r[i] == Columns(rows[i])
  {
    seq(|rows|, i requires 0 <= i < |rows| => Columns(rows[i]))
  }

  /** Mapping a key-sorted sequence to contacts keeps it sorted. */
  lemma ContactsSorted(cs: seq<ContactColumns>)
    requires SortedBy(cs, ColumnsKey, false)
    ensures SortedBy(ContactsFromColumns(cs), ContactKey, false)
  {
    var r := ContactsFromColumns(cs);
    forall i, j | 0 <= i < j < |r| ensures Precedes(ContactKey(r[i]), ContactKey(r[j]), false) {
      assert Precedes(ColumnsKey(cs[i]), ColumnsKey(cs[j]), false);
    }
  }

  /** The rows of the `search_contacts` SELECT. */
  function SearchRows(rows: seq<ContactRow>, query: string): seq<ContactColumns>
  {
    Window(SortBy(Distinct(ColumnsOf(Filter(rows, SearchCondition(query)))), ColumnsKey, false), 50, 0)
  }

  /** `search_contacts`; [] when whatsapp.db fails. */
  function SearchContacts(waDb: Db<seq<ContactRow>>, query: string): (r: seq<Contact>)
    ensures |r| <= 50
  {
    if waDb.Unavailable? then [] else ContactsFromColumns(SearchRows(waDb.tables, query))
  }

  /** A selected row is a contact row matching the query. */
  lemma SearchRowFrom(rows: seq<ContactRow>, query: string, x: ContactColumns)
    requires x in SearchRows(rows, query)
    ensures exists row :: row in rows && SearchMatches(row, query) && x == Columns(row)
  {
    var matching := Filter(rows, SearchCondition(query));
    var distinct := Distinct(ColumnsOf(matching));
    WindowMembers(SortBy(distinct, ColumnsKey, false), 50, 0, x);
    SortByMembers(distinct, ColumnsKey, false, x);
    var k :| 0 <= k < |matching| && Columns(matching[k]) == x;
  }

  /** Building the record keeps every selected column, so distinct column
      tuples give distinct contacts. */
  lemma ContactFromColumnsInjective(a: ContactColumns, b: ContactColumns)
    requires ContactFromColumns(a) == ContactFromColumns(b)
    ensures a == b
  {
    assert a.theirJid == ContactFromColumns(a).jid && b.theirJid == ContactFromColumns(b).jid;
  }

  /** `search_contacts` lists its contacts in the order of the CASE key. */
  lemma SearchContactsSorted(rows: seq<ContactRow>, query: string)
    ensures SortedBy(SearchContacts(Available(rows), query), ContactKey, false)
  {
    var distinct := Distinct(ColumnsOf(Filter(rows, SearchCondition(query))));
    SortByCorrect(distinct, ColumnsKey, false);
    WindowSorted(SortBy(distinct, ColumnsKey, false), 50, 0, ColumnsKey, false);
    ContactsSorted(SearchRows(rows, query));
  }

  /** `search_contacts` lists no contact twice (the DISTINCT). */
  lemma SearchContactsDistinct(rows: seq<ContactRow>, query: string)
    ensures var r := SearchContacts(Available(rows), query);
      forall i, j :: 0 <= i < j < |r| ==> r[i] != r[j]
  {
    var distinct := Distinct(ColumnsOf(Filter(rows, SearchCondition(query))));
    var sorted := SortBy(distinct, ColumnsKey, false);
    var sel := SearchRows(rows, query);
    var r := SearchContacts(Available(rows), query);
    forall i, j | 0 <= i < j < |r| ensures r[i] != r[j] {
      assert sel[i] == sorted[i] && sel[j] == sorted[j];
      SortByDistinct(distinct, ColumnsKey, false, i, j);
      if r[i] == r[j] {
        ContactFromColumnsInjective(sel[i], sel[j]);
      }
    }
  }

  /** Every contact `search_contacts` lists is built, without a nickname,
      from a non-group contact row whose name columns or JID contain the
      query. */
  lemma SearchContactsFrom(rows: seq<ContactRow>, query: string)
    ensures var r := SearchContacts(Available(rows), query);
      forall i :: 0 <= i < |r| ==>
        (r[i].nickname.None? && NotGroupLike(r[i].jid) &&
         exists row :: row in rows && SearchMatches(row, query) && r[i] == ContactFromColumns(Columns(row)))
  {
    var sel := SearchRows(rows, query);
    var r := SearchContacts(Available(rows), query);
    forall i | 0 <= i < |r|
      ensures r[i].nickname.None? && NotGroupLike(r[i].jid) &&
        exists row :: row in rows && SearchMatches(row, query) && r[i] == ContactFromColumns(Columns(row))
    {
      assert sel[i] in sel;
      SearchRowFrom(rows, query, sel[i]);
    }
  }

  /** A matching row's columns survive the WHERE clause and the DISTINCT. */
  lemma MatchSelected(rows: seq<ContactRow>, query: string, row: ContactRow)
    requires row in rows && SearchMatches(row, query)
    ensures Columns(row) in Distinct(ColumnsOf(Filter(rows, SearchCondition(query))))
  {
    var matching := Filter(rows, SearchCondition(query));
    var k :| 0 <= k < |rows| && rows[k] == row;
    assert SearchCondition(query)(rows[k]);
    assert row in matching;
    var m :| 0 <= m < |matching| && matching[m] == row;
    assert ColumnsOf(matching)[m] == Columns(row);
  }

  /** A window that covers the whole sorted column list keeps every entry. */
  lemma WindowKeepsAll(cs: seq<ContactColumns>, limit: int, x: ContactColumns)
    requires limit < 0 || limit >= |cs|
    requires x in cs
    ensures ContactFromColumns(x) in ContactsFromColumns(Window(SortBy(cs, ColumnsKey, false), limit, 0))
  {
    var sorted := SortBy(cs, ColumnsKey, false);
    SortByCorrect(cs, ColumnsKey, false);
    SortByMembers(cs, ColumnsKey, false, x);
    assert Window(sorted, limit, 0) == sorted;
    var i :| 0 <= i < |sorted| && sorted[i] == x;
    assert ContactsFromColumns(sorted)[i] == ContactFromColumns(x);
  }

  /** A query with at most 50 distinct matches finds every one of them. */
  lemma SearchComplete(rows: seq<ContactRow>, query: string, row: ContactRow)
    requires row in rows && SearchMatches(row, query)
    requires |Distinct(ColumnsOf(Filter(rows, SearchCondition(query))))| <= 50
    ensures ContactFromColumns(Columns(row)) in SearchContacts(Available(rows), query)
  {
    MatchSelected(rows, query, row);
    WindowKeepsAll(Distinct(ColumnsOf(Filter(rows, SearchCondition(query)))), 50, Columns(row));
  }

  function PersonRow(): ContactRow -> bool
  {
    (row: ContactRow) => NotGroupLike(row.theirJid)
  }

  /** The rows of the `list_all_contacts` SELECT. */
  function AllContactRows(rows: seq<ContactRow>, limit: int): seq<ContactColumns>
  {
    Window(SortBy(ColumnsOf(Filter(rows, PersonRow())), ColumnsKey, false), limit, 0)
  }

  /** `list_all_contacts`; [] when whatsapp.db fails. */
  function ListAllContacts(waDb: Db<seq<ContactRow>>, limit: int): (r: seq<Contact>)
    ensures limit >= 0 ==> |r| <= limit
  {
    if waDb.Unavailable? then [] else ContactsFromColumns(AllContactRows(waDb.tables, limit))
  }

  /** `list_all_contacts` lists its contacts in the order of the CASE key. */
  lemma ListAllContactsSorted(rows: seq<ContactRow>, limit: int)
    ensures SortedBy(ListAllContacts(Available(rows), limit), ContactKey, false)
  {
    var persons := ColumnsOf(Filter(rows, PersonRow()));
    SortByCorrect(persons, ColumnsKey, false);
    WindowSorted(SortBy(persons, ColumnsKey, false), limit, 0, ColumnsKey, false);
    ContactsSorted(AllContactRows(rows, limit));
  }

  /** Every contact `list_all_contacts` lists is built, without a nickname,
      from a non-group contact row. */
  lemma ListAllContactsFrom(rows: seq<ContactRow>, limit: int)
    ensures var r := ListAllContacts(Available(rows), limit);
      forall i :: 0 <= i < |r| ==>
        (r[i].nickname.None? && NotGroupLike(r[i].jid) &&
         exists row :: row in rows && r[i] == ContactFromColumns(Columns(row)))
  {
    var persons := ColumnsOf(Filter(rows, PersonRow()));
    var sorted := SortBy(persons, ColumnsKey, false);
    var sel := AllContactRows(rows, limit);
    var r := ListAllContacts(Available(rows), limit);
    forall i | 0 <= i < |r|
      ensures r[i].nickname.None? && NotGroupLike(r[i].jid) &&
        exists row :: row in rows && r[i] == ContactFromColumns(Columns(row))
    {
      assert sel[i] in sel;
      WindowMembers(sorted, limit, 0, sel[i]);
      SortByMembers(persons, ColumnsKey, false, sel[i]);
      var k :| 0 <= k < |persons| && persons[k] == sel[i];
      var row := Filter(rows, PersonRow())[k];
      assert row in rows && PersonRow()(row);
    }
  }

  /** With a negative limit, or one that covers every person row, every
      non-group contact row is listed. */
  lemma ListAllContactsComplete(rows: seq<ContactRow>, limit: int, row: ContactRow)
    requires limit < 0 || limit >= |Filter(rows, PersonRow())|
    requires row in rows && NotGroupLike(row.theirJid)
    ensures ContactFromColumns(Columns(row)) in ListAllContacts(Available(rows), limit)
  {
    var matching := Filter(rows, PersonRow());
    var k0 :| 0 <= k0 < |rows| && rows[k0] == row;
    assert PersonRow()(rows[k0]);
    var k :| 0 <= k < |matching| && matching[k] == row;
    assert ColumnsOf(matching)[k] == Columns(row);
    WindowKeepsAll(ColumnsOf(matching), limit, Columns(row));
  }
}
