/** The parts of a SELECT statement that do not depend on the tables:
    WHERE (a filter that keeps row order), a first match (LIMIT 1 without
    ORDER BY), ORDER BY (a stable sort on a column value), LIMIT/OFFSET and
    DISTINCT. */
module Select {
  import opened Common
  import opened Text

  /** WHERE: the rows satisfying `p`, in table order. */
  function Filter<T>(s: seq<T>, p: T -> bool): (r: seq<T>)
    ensures |r| <= |s|
    ensures forall i :: 0 <= i < |r| ==> p(r[i]) && r[i] in s
    ensures forall i :: 0 <= i < |s| && p(s[i]) ==> s[i] in r
  {
    if s == [] then []
    else
      var rest := Filter(s[1..], p);
      assert forall i :: 0 < i < |s| ==> s[i] == s[1..][i - 1];
      if p(s[0]) then [s[0]] + rest else rest
  }

  /** Filters by pointwise-equal conditions select the same rows. */
  lemma {:induction false} FilterSame<T>(s: seq<T>, p: T -> bool, q: T -> bool)
    requires forall i :: 0 <= i < |s| ==> p(s[i]) == q(s[i])
    ensures Filter(s, p) == Filter(s, q)
  {
    if s != [] {
      assert forall i :: 0 < i < |s| ==> s[i] == s[1..][i - 1];
      FilterSame(s[1..], p, q);
    }
  }

  /** A filter keeps at most as many copies of a row as the table has. */
  lemma {:induction false} FilterSubMultiset<T>(s: seq<T>, p: T -> bool)
    ensures multiset(Filter(s, p)) <= multiset(s)
  {
    if s != [] {
      FilterSubMultiset(s[1..], p);
      assert s == [s[0]] + s[1..];
    }
  }

  /** The first row satisfying `p` (a LIMIT 1 query without ORDER BY). */
  function First<T>(s: seq<T>, p: T -> bool): (r: Option<T>)
    ensures r.None? <==> forall i :: 0 <= i < |s| ==> !p(s[i])
    ensures r.Some? ==> exists k :: 0 <= k < |s| && s[k] == r.value && p(s[k]) && forall j :: 0 <= j < k ==> !p(s[j])
  {
    if s == [] then None
    else if p(s[0]) then Some(s[0])
    else
      var r := First(s[1..], p);
      assert forall i :: 0 < i < |s| ==> s[i] == s[1..][i - 1];
      assert r.Some? ==> exists k :: 0 < k < |s| && s[k] == r.value && p(s[k]) && forall j :: 0 <= j < k ==> !p(s[j]) by {
        if r.Some? {
          var k :| 0 <= k < |s| - 1 && s[1..][k] == r.value && p(s[1..][k]) && forall j :: 0 <= j < k ==> !p(s[1..][j]);
          assert forall j :: 0 < j < k + 1 ==> s[j] == s[1..][j - 1];
        }
      }
      r
  }

  /** A column value used as a sort key. SQLite orders every number before
      every text value, and text values by their bytes. */
  datatype SortKey = IntKey(i: int) | TextKey(t: string)

  predicate KeyLe(a: SortKey, b: SortKey)
  {
    match (a, b)
    case (IntKey(x), IntKey(y)) => x <= y
    case (TextKey(x), TextKey(y)) => TextLe(x, y)
    case (IntKey(_), TextKey(_)) => true
    case (TextKey(_), IntKey(_)) => false
  }

  /** `a` may come before `b` in an `ORDER BY ... ASC` (desc false) or
      `ORDER BY ... DESC` (desc true). */
  predicate Precedes(a: SortKey, b: SortKey, desc: bool)
  {
    if desc then KeyLe(b, a) else KeyLe(a, b)
  }

  lemma PrecedesTotal(a: SortKey, b: SortKey, desc: bool)
    ensures Precedes(a, b, desc) || Precedes(b, a, desc)
  {
    if a.TextKey? && b.TextKey? { TextLeTotal(a.t, b.t); }
  }

  lemma PrecedesTransitive(a: SortKey, b: SortKey, c: SortKey, desc: bool)
    requires Precedes(a, b, desc) && Precedes(b, c, desc)
    ensures Precedes(a, c, desc)
  {
    if a.TextKey? && b.TextKey? && c.TextKey? {
      if desc { TextLeTransitive(c.t, b.t, a.t); } else { TextLeTransitive(a.t, b.t, c.t); }
    }
  }

  ghost predicate SortedBy<T>(s: seq<T>, key: T -> SortKey, desc: bool)
  {
    forall i, j :: 0 <= i < j < |s| ==> Precedes(key(s[i]), key(s[j]), desc)
  }

  /** Insert `x` before the first element it may precede. */
  function Insert<T>(x: T, s: seq<T>, key: T -> SortKey, desc: bool): seq<T>
  {
    if s == [] then [x]
    else if Precedes(key(x), key(s[0]), desc) then [x] + s
    else [s[0]] + Insert(x, s[1..], key, desc)
  }

  /** Stable insertion sort: rows with equal keys keep their table order. */
  function SortBy<T>(s: seq<T>, key: T -> SortKey, desc: bool): seq<T>
  {
    if s == [] then [] else Insert(s[0], SortBy(s[1..], key, desc), key, desc)
  }

  lemma {:induction false} InsertMultiset<T>(x: T, s: seq<T>, key: T -> SortKey, desc: bool)
    ensures multiset(Insert(x, s, key, desc)) == multiset(s) + multiset{x}
  {
    if s != [] && !Precedes(key(x), key(s[0]), desc) {
      assert s == [s[0]] + s[1..];
      InsertMultiset(x, s[1..], key, desc);
    }
  }

  /** A key that precedes `x` and all of `s` precedes all of `Insert(x, s)`. */
  lemma {:induction false} InsertBelow<T>(x: T, s: seq<T>, key: T -> SortKey, desc: bool, b: SortKey)
    requires Precedes(b, key(x), desc)
    requires forall j :: 0 <= j < |s| ==> Precedes(b, key(s[j]), desc)
    ensures forall j :: 0 <= j < |Insert(x, s, key, desc)| ==> Precedes(b, key(Insert(x, s, key, desc)[j]), desc)
  {
    if s != [] && !Precedes(key(x), key(s[0]), desc) {
      InsertBelow(x, s[1..], key, desc, b);
      var u := Insert(x, s[1..], key, desc);
      assert Insert(x, s, key, desc) == [s[0]] + u;
      forall j | 0 <= j < |[s[0]] + u| ensures Precedes(b, key(([s[0]] + u)[j]), desc) {
        if j > 0 { assert ([s[0]] + u)[j] == u[j - 1]; }
      }
    }
  }

  /** An element that precedes every element of a sorted sequence can go in front. */
  lemma ConsSorted<T>(y: T, u: seq<T>, key: T -> SortKey, desc: bool)
    requires SortedBy(u, key, desc)
    requires forall j :: 0 <= j < |u| ==> Precedes(key(y), key(u[j]), desc)
    ensures SortedBy([y] + u, key, desc)
  {
    var r := [y] + u;
    forall i, j | 0 <= i < j < |r| ensures Precedes(key(r[i]), key(r[j]), desc) {
      assert r[j] == u[j - 1];
      if i > 0 {
        assert r[i] == u[i - 1];
      }
    }
  }

  lemma {:induction false} InsertSorted<T>(x: T, s: seq<T>, key: T -> SortKey, desc: bool)
    requires SortedBy(s, key, desc)
    ensures SortedBy(Insert(x, s, key, desc), key, desc)
  {
    if s == [] {
    } else if Precedes(key(x), key(s[0]), desc) {
      forall j | 0 <= j < |s| ensures Precedes(key(x), key(s[j]), desc) {
        if j > 0 { PrecedesTransitive(key(x), key(s[0]), key(s[j]), desc); }
      }
      ConsSorted(x, s, key, desc);
    } else {
      PrecedesTotal(key(x), key(s[0]), desc);
      var t := s[1..];
      forall i, j | 0 <= i < j < |t| ensures Precedes(key(t[i]), key(t[j]), desc) {
        assert t[i] == s[i + 1] && t[j] == s[j + 1];
      }
      forall j | 0 <= j < |t| ensures Precedes(key(s[0]), key(t[j]), desc) {
        assert t[j] == s[j + 1];
      }
      InsertSorted(x, t, key, desc);
      InsertBelow(x, t, key, desc, key(s[0]));
      ConsSorted(s[0], Insert(x, t, key, desc), key, desc);
    }
  }

  /** The first match in a concatenation comes from the left part when it has one. */
  lemma {:induction false} FirstAppend<T>(a: seq<T>, b: seq<T>, p: T -> bool)
    ensures First(a + b, p) == if First(a, p).Some? then First(a, p) else First(b, p)
  {
    if a == [] {
      assert a + b == b;
    } else {
      assert (a + b)[0] == a[0] && (a + b)[1..] == a[1..] + b;
      FirstAppend(a[1..], b, p);
    }
  }

  /** Filtering by a condition implied by `p` does not change the first `p` match. */
  lemma {:induction false} FirstOfFilter<T>(s: seq<T>, p: T -> bool, q: T -> bool)
    requires forall i :: 0 <= i < |s| && p(s[i]) ==> q(s[i])
    ensures First(Filter(s, q), p) == First(s, p)
  {
    if s != [] {
      assert forall i :: 0 < i < |s| ==> s[i] == s[1..][i - 1];
      FirstOfFilter(s[1..], p, q);
    }
  }

  lemma {:induction false} SortByMultiset<T>(s: seq<T>, key: T -> SortKey, desc: bool)
    ensures multiset(SortBy(s, key, desc)) == multiset(s)
  {
    if s != [] {
      SortByMultiset(s[1..], key, desc);
      InsertMultiset(s[0], SortBy(s[1..], key, desc), key, desc);
      assert s == [s[0]] + s[1..];
    }
  }

  lemma {:induction false} SortBySorted<T>(s: seq<T>, key: T -> SortKey, desc: bool)
    ensures SortedBy(SortBy(s, key, desc), key, desc)
  {
    if s != [] {
      SortBySorted(s[1..], key, desc);
      InsertSorted(s[0], SortBy(s[1..], key, desc), key, desc);
    }
  }

  /** ORDER BY returns a permutation of its input, in key order. */
  lemma SortByCorrect<T>(s: seq<T>, key: T -> SortKey, desc: bool)
    ensures multiset(SortBy(s, key, desc)) == multiset(s)
    ensures |SortBy(s, key, desc)| == |s|
    ensures SortedBy(SortBy(s, key, desc), key, desc)
  {
    SortByMultiset(s, key, desc);
    SortBySorted(s, key, desc);
    assert |SortBy(s, key, desc)| == |multiset(SortBy(s, key, desc))|;
  }

  /** An element belongs to the sorted rows exactly when it belongs to the rows. */
  lemma SortByMembers<T>(s: seq<T>, key: T -> SortKey, desc: bool, x: T)
    ensures x in SortBy(s, key, desc) <==> x in s
  {
    SortByCorrect(s, key, desc);
    assert x in SortBy(s, key, desc) <==> x in multiset(SortBy(s, key, desc));
    assert x in s <==> x in multiset(s);
  }

  /** Sorting a duplicate-free sequence keeps it duplicate-free. */
  lemma SortByDistinct<T>(s: seq<T>, key: T -> SortKey, desc: bool, i: int, j: int)
    requires forall a, b :: 0 <= a < b < |s| ==> s[a] != s[b]
    requires 0 <= i < j < |SortBy(s, key, desc)|
    ensures SortBy(s, key, desc)[i] != SortBy(s, key, desc)[j]
  {
    var t := SortBy(s, key, desc);
    SortByCorrect(s, key, desc);
    if t[i] == t[j] {
      CountTwo(t, i, j);
      UniqueCountsOne(s, t[i]);
    }
  }

  /** A value at two positions occurs at least twice. */
  lemma CountTwo<T>(t: seq<T>, i: int, j: int)
    requires 0 <= i < j < |t| && t[i] == t[j]
    ensures multiset(t)[t[i]] >= 2
  {
    assert t == t[..j] + t[j..];
    assert t[i] in t[..j] && t[j] in t[j..];
  }

  lemma {:induction false} UniqueCountsOne<T>(s: seq<T>, x: T)
    requires forall a, b :: 0 <= a < b < |s| ==> s[a] != s[b]
    ensures multiset(s)[x] <= 1
  {
    if s != [] {
      assert s == [s[0]] + s[1..];
      UniqueCountsOne(s[1..], x);
      if s[0] == x {
        assert x !in s[1..];
        assert multiset(s[1..])[x] == 0;
      }
    }
  }

  /** First row that OFFSET keeps: SQLite treats a negative offset as zero. */
  function OffsetStart(n: nat, offset: int): (start: nat)
    ensures start <= n
  {
    if offset <= 0 then 0 else if offset < n then offset else n
  }

  /** `LIMIT limit OFFSET offset` as SQLite evaluates it: skip `offset` rows
      (none when it is negative), then keep at most `limit` rows (all of them
      when `limit` is negative). */
  function Window<T>(s: seq<T>, limit: int, offset: int): (r: seq<T>)
    ensures limit >= 0 ==> |r| <= limit
    ensures |r| <= |s| - OffsetStart(|s|, offset)
    ensures r == s[OffsetStart(|s|, offset)..OffsetStart(|s|, offset) + |r|]
    ensures limit < 0 ==> |r| == |s| - OffsetStart(|s|, offset)
    ensures limit >= 0 ==> |r| == if limit < |s| - OffsetStart(|s|, offset) then limit else |s| - OffsetStart(|s|, offset)
  {
    var start := OffsetStart(|s|, offset);
    var rest := s[start..];
    if limit < 0 || limit >= |rest| then rest else rest[..limit]
  }

  /** Every row of a window is a row of its input. */
  lemma WindowMembers<T>(s: seq<T>, limit: int, offset: int, x: T)
    requires x in Window(s, limit, offset)
    ensures x in s
  {
    var r := Window(s, limit, offset);
    var start := OffsetStart(|s|, offset);
    var k :| 0 <= k < |r| && r[k] == x;
    assert s[start + k] == x;
  }

  /** A window of a sorted sequence is sorted. */
  lemma WindowSorted<T>(s: seq<T>, limit: int, offset: int, key: T -> SortKey, desc: bool)
    requires SortedBy(s, key, desc)
    ensures SortedBy(Window(s, limit, offset), key, desc)
  {
    var r := Window(s, limit, offset);
    var start := OffsetStart(|s|, offset);
    forall i, j | 0 <= i < j < |r| ensures Precedes(key(r[i]), key(r[j]), desc) {
      assert r[i] == s[start + i] && r[j] == s[start + j];
    }
  }

  /** A window of a duplicate-free sequence is duplicate-free. */
  lemma WindowDistinct<T>(s: seq<T>, limit: int, offset: int)
    requires forall a, b :: 0 <= a < b < |s| ==> s[a] != s[b]
    ensures var r := Window(s, limit, offset); forall a, b :: 0 <= a < b < |r| ==> r[a] != r[b]
  {
    var r := Window(s, limit, offset);
    var start := OffsetStart(|s|, offset);
    forall a, b | 0 <= a < b < |r| ensures r[a] != r[b] {
      assert r[a] == s[start + a] && r[b] == s[start + b];
    }
  }

  /** A leading window of a sorted sequence keeps its top rows: each kept
      row may precede each row left out. */
  lemma WindowKeepsTop<T>(s: seq<T>, limit: int, key: T -> SortKey, desc: bool, x: T, y: T)
    requires SortedBy(s, key, desc)
    requires x in s && x !in Window(s, limit, 0) && y in Window(s, limit, 0)
    ensures Precedes(key(y), key(x), desc)
  {
    var r := Window(s, limit, 0);
    var i :| 0 <= i < |r| && r[i] == y;
    var j :| 0 <= j < |s| && s[j] == x;
    assert forall k :: 0 <= k < |r| ==> r[k] == s[k];
    assert j >= |r|;
    assert s[i] == y;
  }

  /** Pages 0..p of size `limit`, concatenated. */
  function Pages<T>(s: seq<T>, limit: nat, p: nat): seq<T>
  {
    if p == 0 then Window(s, limit, 0)
    else Pages(s, limit, p - 1) + Window(s, limit, p * limit)
  }

  /** Reading pages 0..p one after another yields the first (p+1)*limit rows. */
  lemma {:induction false} PagesConcatenate<T>(s: seq<T>, limit: nat, p: nat)
    ensures Pages(s, limit, p) == Window(s, (p + 1) * limit, 0)
  {
    if p > 0 {
      PagesConcatenate(s, limit, p - 1);
      MulSucc(p, limit);
      WindowSplit(s, p * limit, limit);
    }
  }

  lemma MulSucc(p: nat, limit: nat)
    ensures (p - 1 + 1) * limit == p * limit
    ensures (p + 1) * limit == p * limit + limit && p * limit >= 0
  {
  }

  /** The first n rows followed by the next m rows are the first n + m rows. */
  lemma WindowSplit<T>(s: seq<T>, n: nat, m: nat)
    ensures Window(s, n, 0) + Window(s, m, n) == Window(s, n + m, 0)
  {
    var a := Window(s, n, 0);
    var b := Window(s, m, n);
    var c := Window(s, n + m, 0);
    if n < |s| {
      assert a == s[..n];
      assert b == s[n..|c|];
      assert c == s[..|c|];
    } else {
      assert b == [];
      assert a == s && c == s;
    }
  }

  /** An offset inside the input: the window starts exactly there. */
  lemma WindowAt<T>(s: seq<T>, limit: int, offset: int)
    requires 0 <= offset <= |s|
    ensures Window(s, limit, offset) == s[offset..offset + |Window(s, limit, offset)|]
  {
  }

  lemma DivNonNegative(k: int, d: int)
    requires k >= 0 && d > 0
    ensures k / d >= 0 && (k / d) * d <= k < (k / d) * d + d
  {
  }

  /** With a positive limit, row k is on page k / limit. */
  lemma WindowPageOf<T>(s: seq<T>, limit: int, k: int)
    requires limit > 0 && 0 <= k < |s|
    ensures k / limit >= 0
    ensures s[k] in Window(s, limit, (k / limit) * limit)
  {
    DivNonNegative(k, limit);
    var q := k / limit;
    var start := q * limit;
    var r := k - start;
    assert 0 <= start <= k && 0 <= r < limit;
    assert OffsetStart(|s|, start) == start;
    var w := Window(s, limit, start);
    assert |w| > r;
    assert w[r] == s[k];
  }

  /** Each element replaced by its block, the blocks concatenated in order. */
  function FlatMap<T>(s: seq<T>, block: T -> seq<T>): seq<T>
  {
    if s == [] then [] else FlatMap(s[..|s| - 1], block) + block(s[|s| - 1])
  }

  lemma {:induction false} FlatMapAppend<T>(s: seq<T>, t: seq<T>, block: T -> seq<T>)
    ensures FlatMap(s + t, block) == FlatMap(s, block) + FlatMap(t, block)
  {
    if t == [] {
      assert s + t == s;
    } else {
      var t' := t[..|t| - 1];
      assert (s + t)[..|s + t| - 1] == s + t';
      assert (s + t)[|s + t| - 1] == t[|t| - 1];
      FlatMapAppend(s, t', block);
    }
  }

  /** When every element lies in its own block, every element lies in the
      result, which is then at least as long as the input. */
  lemma {:induction false} FlatMapKeeps<T>(s: seq<T>, block: T -> seq<T>)
    requires forall i :: 0 <= i < |s| ==> s[i] in block(s[i])
    ensures forall i :: 0 <= i < |s| ==> s[i] in FlatMap(s, block)
    ensures |FlatMap(s, block)| >= |s|
  {
    if s != [] {
      var front := s[..|s| - 1];
      assert forall i :: 0 <= i < |front| ==> front[i] == s[i];
      FlatMapKeeps(front, block);
      assert s[|s| - 1] in block(s[|s| - 1]);
    }
  }

  /** FlatMap with blocks that may fail: the first failure is the result. */
  function FlatMapResult<T, E>(s: seq<T>, block: T -> Result<seq<T>, E>): Result<seq<T>, E>
  {
    if s == [] then Ok([])
    else
      match FlatMapResult(s[..|s| - 1], block)
      case Err(e) => Err(e)
      case Ok(front) =>
        match block(s[|s| - 1])
        case Err(e) => Err(e)
        case Ok(b) => Ok(front + b)
  }

  /** Blocks that all succeed give the plain FlatMap of their values. */
  lemma {:induction false} FlatMapResultOk<T, E>(s: seq<T>, blockR: T -> Result<seq<T>, E>, block: T -> seq<T>)
    requires forall i :: 0 <= i < |s| ==> blockR(s[i]) == Ok(block(s[i]))
    ensures FlatMapResult(s, blockR) == Ok(FlatMap(s, block))
  {
    if s != [] {
      var front := s[..|s| - 1];
      assert forall i :: 0 <= i < |front| ==> front[i] == s[i];
      FlatMapResultOk(front, blockR, block);
    }
  }

  /** SELECT DISTINCT: the first occurrence of every row, in order. */
  function Distinct<T(==)>(s: seq<T>): (r: seq<T>)
    ensures forall i :: 0 <= i < |s| ==> s[i] in r
    ensures forall i :: 0 <= i < |r| ==> r[i] in s
    ensures forall i, j :: 0 <= i < j < |r| ==> r[i] != r[j]
  {
    if s == [] then []
    else
      var d := Distinct(s[..|s| - 1]);
      assert s == s[..|s| - 1] + [s[|s| - 1]];
      if s[|s| - 1] in d then d else d + [s[|s| - 1]]
  }
}
