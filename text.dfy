/** Text operations the SQL queries and the Python code rely on: SQLite's
    ASCII-only case folding and `LIKE '%q%'`, suffix tests, the phone part of a
    JID and the byte-wise (BINARY collation) order of text values. */
module Text {

  /** ASCII lower-casing of one character, as SQLite's LOWER() and LIKE do. */
  function LowerChar(c: char): char
  {
    if 'A' <= c <= 'Z' then (c as int + 32) as char else c
  }

  function Lower(s: string): (r: string)
    ensures |r| == |s|
    ensures forall i :: 0 <= i < |s| ==> r[i] == LowerChar(s[i])
  {
    seq(|s|, i requires 0 <= i < |s| => LowerChar(s[i]))
  }

  predicate StartsWith(s: string, prefix: string)
  {
    |prefix| <= |s| && s[..|prefix|] == prefix
  }

  predicate EndsWith(s: string, suffix: string)
  {
    |suffix| <= |s| && s[|s| - |suffix|..] == suffix
  }

  /** `needle` occurs in `hay` starting at position `i`. */
  predicate OccursAt(hay: string, needle: string, i: int)
  {
    0 <= i && i + |needle| <= |hay| && hay[i..i + |needle|] == needle
  }

  /** Substring test, scanning `hay` from the left. */
  predicate Contains(hay: string, needle: string)
    decreases |hay|
  {
    StartsWith(hay, needle) || (hay != [] && Contains(hay[1..], needle))
  }

  /** The scan finds `needle` exactly when it occurs somewhere in `hay`. */
  lemma {:induction false} ContainsIffOccurs(hay: string, needle: string)
    ensures Contains(hay, needle) <==> exists i :: OccursAt(hay, needle, i)
    decreases |hay|
  {
    if StartsWith(hay, needle) {
      assert OccursAt(hay, needle, 0);
    } else if hay != [] {
      ContainsIffOccurs(hay[1..], needle);
      if exists i :: OccursAt(hay[1..], needle, i) {
        var i :| OccursAt(hay[1..], needle, i);
        assert hay[i + 1..i + 1 + |needle|] == hay[1..][i..i + |needle|];
        assert OccursAt(hay, needle, i + 1);
      }
      if exists i :: OccursAt(hay, needle, i) {
        var i :| OccursAt(hay, needle, i);
        assert i != 0;
        assert hay[1..][i - 1..i - 1 + |needle|] == hay[i..i + |needle|];
        assert OccursAt(hay[1..], needle, i - 1);
      }
    }
  }

  /** SQLite's `hay LIKE '%pattern%'` for a pattern without wildcards. */
  predicate Like(hay: string, pattern: string)
  {
    Contains(Lower(hay), Lower(pattern))
  }

  /** SQLite's `hay LIKE '%suffix'` for a suffix without wildcards. */
  predicate LikeSuffix(hay: string, suffix: string)
  {
    EndsWith(Lower(hay), Lower(suffix))
  }

  /** Every text value is LIKE-matched by each of its prefixes. */
  lemma LikePrefix(s: string, k: nat)
    requires k <= |s|
    ensures Like(s, s[..k])
  {
    assert Lower(s[..k]) == Lower(s)[..k];
    assert StartsWith(Lower(s), Lower(s[..k]));
  }

  /** The case-sensitive suffix test implies the case-insensitive one. */
  lemma EndsWithLikeSuffix(s: string, suffix: string)
    requires EndsWith(s, suffix)
    ensures LikeSuffix(s, suffix)
  {
    assert Lower(s)[|s| - |suffix|..] == Lower(s[|s| - |suffix|..]);
  }

  /** `jid.split('@')[0] if '@' in jid else jid`: the text before the first
      `@`, or the whole text when there is none. */
  function PhonePart(jid: string): (r: string)
    ensures StartsWith(jid, r)
    ensures '@' !in r
    ensures '@' in jid ==> |r| < |jid| && jid[|r|] == '@'
    ensures '@' !in jid ==> r == jid
  {
    if jid == [] then []
    else if jid[0] == '@' then []
    else [jid[0]] + PhonePart(jid[1..])
  }

  /** The phone part of a JID always LIKE-matches the JID itself. */
  lemma PhonePartMatches(jid: string)
    ensures Like(jid, PhonePart(jid))
  {
    LikePrefix(jid, |PhonePart(jid)|);
  }

  /** Byte-wise order of text values (SQLite's BINARY collation; for UTF-8
      text this is the order of code points). */
  predicate TextLe(a: string, b: string)
    decreases |a|
  {
    if a == [] then true
    else if b == [] then false
    else if a[0] < b[0] then true
    else if a[0] > b[0] then false
    else TextLe(a[1..], b[1..])
  }

  lemma {:induction false} TextLeTotal(a: string, b: string)
    ensures TextLe(a, b) || TextLe(b, a)
    decreases |a|
  {
    if a != [] && b != [] && a[0] == b[0] {
      TextLeTotal(a[1..], b[1..]);
    }
  }

  lemma {:induction false} TextLeTransitive(a: string, b: string, c: string)
    requires TextLe(a, b) && TextLe(b, c)
    ensures TextLe(a, c)
    decreases |a|
  {
    if a != [] && b != [] && c != [] && a[0] == b[0] && b[0] == c[0] {
      TextLeTransitive(a[1..], b[1..], c[1..]);
    }
  }
}
