/** The server's nickname overrides: the `contact_nicknames` table of
    messages.db, jid -> (nickname, updated_at). Every operation runs against
    the database and catches `sqlite3.Error`; `fault` is the error a failing
    database raises, `None` when it works. */
module Nicknames {
  import opened Common
  import opened Text
  import opened Select
  import opened Tables

  /** `SELECT nickname FROM contact_nicknames WHERE jid = ?`. */
  function NicknameOf(table: map<string, NicknameRow>, jid: string): (r: Option<string>)
    ensures r.Some? <==> jid in table
    ensures r.Some? ==> r.value == table[jid].nickname
  {
    if jid in table then Some(table[jid].nickname) else None
  }

  /** Upsert: a second `set` overwrites the first. */
  lemma SetTwiceKeepsLast(table: map<string, NicknameRow>, jid: string, a: NicknameRow, b: NicknameRow)
    ensures NicknameOf(table[jid := a][jid := b], jid) == Some(b.nickname)
  {
  }

  /** Order key of a listed (jid, nickname) pair: the nickname. */
  function NicknameKey(p: (string, string)): SortKey
  {
    TextKey(p.1)
  }

  class NicknameStore {
    var table: map<string, NicknameRow>

    constructor ()
      ensures table == map[]
    {
      table := map[];
    }

    /** `set_contact_nickname`: INSERT OR REPLACE with updated_at = `now`. */
    method Set(jid: string, nickname: string, now: int, fault: Option<string>) returns (ok: bool, message: string)
      modifies this
      ensures ok <==> fault.None?
      ensures ok ==> table == old(table)[jid := NicknameRow(nickname, now)]
      ensures ok ==> message == "Nickname '" + nickname + "' set for contact " + jid
      ensures !ok ==> table == old(table) && message == "Database error: " + fault.value
    {
      if fault.Some? {
        return false, "Database error: " + fault.value;
      }
      table := table[jid := NicknameRow(nickname, now)];
      return true, "Nickname '" + nickname + "' set for contact " + jid;
    }

    /** `get_contact_nickname`: the stored nickname, or None when there is
        none or the database fails. */
    method Get(jid: string, fault: Option<string>) returns (r: Option<string>)
      ensures fault.Some? ==> r.None?
      ensures fault.None? ==> (r.Some? <==> jid in table)
      ensures r.Some? ==> jid in table && r.value == table[jid].nickname
    {
      if fault.Some? {
        return None;
      }
      r := NicknameOf(table, jid);
    }

    /** `remove_contact_nickname`: DELETE, reporting whether a row went away. */
    method Remove(jid: string, fault: Option<string>) returns (ok: bool, message: string)
      modifies this
      ensures ok <==> fault.None? && jid in old(table)
      ensures ok ==> table == old(table) - {jid} && message == "Nickname removed for contact " + jid
      ensures !ok ==> table == old(table)
      ensures fault.None? && jid !in old(table) ==> message == "No nickname found for contact " + jid
      ensures fault.Some? ==> message == "Database error: " + fault.value
    {
      if fault.Some? {
        return false, "Database error: " + fault.value;
      }
      if jid in table {
        table := table - {jid};
        return true, "Nickname removed for contact " + jid;
      }
      return false, "No nickname found for contact " + jid;
    }

    /** `list_contact_nicknames`: every (jid, nickname) pair exactly once,
        ordered by nickname; [] when the database fails. */
    method List(fault: Option<string>) returns (r: seq<(string, string)>)
      ensures fault.Some? ==> r == []
      ensures fault.None? ==> |r| == |table|
      ensures forall i :: 0 <= i < |r| ==> r[i].0 in table && table[r[i].0].nickname == r[i].1
      ensures fault.None? ==> forall jid :: jid in table ==> (jid, table[jid].nickname) in r
      ensures SortedBy(r, NicknameKey, false)
    {
      if fault.Some? {
        return [];
      }
      var rows: seq<(string, string)> := [];
      var rest := table.Keys;
      while rest != {}
        invariant rest <= table.Keys
        invariant |rows| + |rest| == |table|
        invariant forall i :: 0 <= i < |rows| ==> rows[i].0 in table && rows[i].0 !in rest && table[rows[i].0].nickname == rows[i].1
        invariant forall jid :: jid in table && jid !in rest ==> (jid, table[jid].nickname) in rows
        decreases |rest|
      {
        var jid :| jid in rest;
        rows := rows + [(jid, table[jid].nickname)];
        rest := rest - {jid};
      }
      SortByCorrect(rows, NicknameKey, false);
      r := SortBy(rows, NicknameKey, false);
      forall i | 0 <= i < |r| ensures r[i] in rows {
        SortByMembers(rows, NicknameKey, false, r[i]);
      }
      forall jid | jid in table ensures (jid, table[jid].nickname) in r {
        SortByMembers(rows, NicknameKey, false, (jid, table[jid].nickname));
      }
    }
  }
}
