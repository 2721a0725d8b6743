/** The query operators the routers hand to the database: offset/limit paging,
    ORDER BY ... DESC, and GROUP BY with a row count. They are modelled on
    sequences of rows; the SQL engine itself is not part of this model. */
module Query {

  function Min(a: int, b: int): int { if a <= b then a else b }

  /** The defaults of the `skip` and `limit` query parameters of the two
      paginated handlers, list_projects and get_project_clicks: a request that
      sends neither gets the first 100 rows. */
  const DefaultSkip: nat := 0
  const DefaultLimit: nat := 100

  /** `.offset(skip).limit(limit)`: at most `limit` rows, starting `skip` rows in. */
  function Page<T>(rows: seq<T>, skip: nat, limit: nat): (page: seq<T>)
    ensures |page| == if skip >= |rows| then 0 else Min(limit, |rows| - skip)
    ensures forall i | 0 <= i < |page| :: page[i] == rows[skip + i]
  {
    if skip >= |rows| then []
    else if limit < |rows| - skip then rows[skip..skip + limit]
    else rows[skip..]
  }

  /** Rows in non-increasing order of key. */
  ghost predicate SortedDesc<T>(rows: seq<T>, key: T -> int) {
    forall i, j | 0 <= i < j < |rows| :: key(rows[i]) >= key(rows[j])
  }

  /** Inserts x in front of the first row whose key is not above key(x). */
  function InsertDesc<T>(x: T, rows: seq<T>, key: T -> int): (r: seq<T>)
    ensures |r| == |rows| + 1
    ensures multiset(r) == multiset(rows) + multiset{x}
  {
    if rows == [] || key(x) >= key(rows[0]) then [x] + rows
    else
      assert rows == [rows[0]] + rows[1..];
      [rows[0]] + InsertDesc(x, rows[1..], key)
  }

  /** Inserting into rows in non-increasing order keeps that order; the new
      first row is x or the old first row. */
  lemma {:induction false} InsertDescSorted<T>(x: T, rows: seq<T>, key: T -> int)
    requires SortedDesc(rows, key)
    ensures SortedDesc(InsertDesc(x, rows, key), key)
    ensures InsertDesc(x, rows, key)[0] == x || (rows != [] && InsertDesc(x, rows, key)[0] == rows[0])
  {
    if rows == [] || key(x) >= key(rows[0]) {
      PrependSorted(x, rows, key);
    } else {
      SortedTail(rows, key);
      InsertDescSorted(x, rows[1..], key);
      PrependSorted(rows[0], InsertDesc(x, rows[1..], key), key);
    }
  }

  /** Dropping the first row keeps the order. */
  lemma SortedTail<T>(rows: seq<T>, key: T -> int)
    requires SortedDesc(rows, key) && rows != []
    ensures SortedDesc(rows[1..], key)
  {
    forall i, j | 0 <= i < j < |rows| - 1 ensures key(rows[1..][i]) >= key(rows[1..][j]) {
      assert rows[1..][i] == rows[i + 1] && rows[1..][j] == rows[j + 1];
    }
  }

  /** A row no smaller than the first keeps the order when put in front. */
  lemma PrependSorted<T>(x: T, rows: seq<T>, key: T -> int)
    requires SortedDesc(rows, key)
    requires rows == [] || key(x) >= key(rows[0])
    ensures SortedDesc([x] + rows, key)
  {
    var r := [x] + rows;
    forall i, j | 0 <= i < j < |r| ensures key(r[i]) >= key(r[j]) {
      if i == 0 {
        assert r[j] == rows[j - 1];
      }
    }
  }

  /** `.order_by(key.desc())`: a permutation of the rows in non-increasing
      order of key. Rows with equal keys may come in any order in SQL; this
      model fixes one. */
  function SortDesc<T>(rows: seq<T>, key: T -> int): (r: seq<T>)
    ensures SortedDesc(r, key)
    ensures multiset(r) == multiset(rows)
    ensures |r| == |rows|
  {
    if rows == [] then []
    else
      var n := |rows| - 1;
      assert rows == rows[..n] + [rows[n]];
      var sorted := SortDesc(rows[..n], key);
      InsertDescSorted(rows[n], sorted, key);
      InsertDesc(rows[n], sorted, key)
  }

  /** One row of a GROUP BY: the grouped value and `func.count(...)`. */
  datatype Group<K> = Group(key: K, count: nat)

  /** The ordering key of `order_by(func.count(...).desc())`. */
  function CountKey<K>(g: Group<K>): int { g.count }

  ghost predicate DistinctKeys<K>(groups: seq<Group<K>>) {
    forall i, j | 0 <= i < j < |groups| :: groups[i].key != groups[j].key
  }

  /** The count the groups give for k, 0 when k has no group. */
  function CountOf<K(==)>(groups: seq<Group<K>>, k: K): nat {
    if groups == [] then 0
    else if groups[0].key == k then groups[0].count
    else CountOf(groups[1..], k)
  }

  /** The sum of all counts. */
  function Total<K>(groups: seq<Group<K>>): nat {
    if groups == [] then 0 else groups[0].count + Total(groups[1..])
  }

  ghost predicate PositiveCounts<K>(groups: seq<Group<K>>) {
    forall i | 0 <= i < |groups| :: groups[i].count > 0
  }

  /** Counts one more row with value k: its group's count goes up by one, or
      a new group with count 1 is appended. */
  function Bump<K(==)>(groups: seq<Group<K>>, k: K): (r: seq<Group<K>>)
    ensures Total(r) == Total(groups) + 1
  {
    if groups == [] then [Group(k, 1)]
    else if groups[0].key == k then
      var r := [Group(k, groups[0].count + 1)] + groups[1..];
      assert r[1..] == groups[1..];
      r
    else
      var r := [groups[0]] + Bump(groups[1..], k);
      assert r[1..] == Bump(groups[1..], k);
      r
  }

  /** Bump adds one to the count of k and changes no other count. */
  lemma {:induction false} BumpCountOf<K>(groups: seq<Group<K>>, k: K, x: K)
    requires DistinctKeys(groups)
    ensures CountOf(Bump(groups, k), x) == CountOf(groups, x) + (if x == k then 1 else 0)
  {
    if groups != [] && groups[0].key != k {
      BumpCountOf(groups[1..], k, x);
      assert Bump(groups, k)[1..] == Bump(groups[1..], k);
    } else if groups != [] {
      NoOtherGroup(groups[1..], k);
      assert Bump(groups, k)[1..] == groups[1..];
    }
  }

  /** Bump brings in no key but k. */
  lemma {:induction false} BumpKeys<K>(groups: seq<Group<K>>, k: K, i: nat)
    requires i < |Bump(groups, k)| && Bump(groups, k)[i].key != k
    ensures exists j | 0 <= j < |groups| :: groups[j].key == Bump(groups, k)[i].key
  {
    var r := Bump(groups, k);
    if groups[0].key == k {
      assert r[i] == groups[i];
    } else if i == 0 {
      assert r[0] == groups[0];
    } else {
      var rest := groups[1..];
      assert r[i] == Bump(rest, k)[i - 1];
      BumpKeys(rest, k, i - 1);
      var j :| 0 <= j < |rest| && rest[j].key == r[i].key;
      assert groups[j + 1].key == r[i].key;
    }
  }

  /** Bump keeps the keys distinct and the counts positive. */
  lemma {:induction false} BumpDistinct<K>(groups: seq<Group<K>>, k: K)
    requires DistinctKeys(groups) && PositiveCounts(groups)
    ensures DistinctKeys(Bump(groups, k)) && PositiveCounts(Bump(groups, k))
  {
    var r := Bump(groups, k);
    if groups != [] && groups[0].key != k {
      var rest := groups[1..];
      var tail := Bump(rest, k);
      assert r == [groups[0]] + tail;
      BumpDistinct(rest, k);
      forall i | 1 <= i < |r| ensures r[i].key != groups[0].key {
        if r[i].key != k {
          assert r[i] == tail[i - 1];
          BumpKeys(rest, k, i - 1);
          var j :| 0 <= j < |rest| && rest[j].key == r[i].key;
          assert groups[j + 1].key == r[i].key;
        }
      }
    } else if groups != [] {
      assert forall i | 1 <= i < |r| :: r[i] == groups[i];
    }
  }

  /** With distinct keys, a key that heads the list has no other group. */
  lemma NoOtherGroup<K>(rest: seq<Group<K>>, k: K)
    requires forall i | 0 <= i < |rest| :: rest[i].key != k
    ensures CountOf(rest, k) == 0
  {
    if rest != [] {
      NoOtherGroup(rest[1..], k);
    }
  }

  /** `GROUP BY value` with `count(...)`: one group per distinct value, in order
      of first appearance, each counting the rows with that value. */
  function GroupCount<K(==,!new)>(values: seq<K>): (groups: seq<Group<K>>)
    ensures DistinctKeys(groups) && PositiveCounts(groups)
    ensures forall k :: CountOf(groups, k) == multiset(values)[k]
    ensures Total(groups) == |values|
  {
    if values == [] then []
    else
      var n := |values| - 1;
      assert values == values[..n] + [values[n]];
      var prev := GroupCount(values[..n]);
      BumpDistinct(prev, values[n]);
      forall x ensures CountOf(Bump(prev, values[n]), x) == multiset(values)[x] {
        BumpCountOf(prev, values[n], x);
      }
      Bump(prev, values[n])
  }

  /** Each group's count is the number of rows with its value, and every value
      that occurs has a group. */
  lemma GroupCountEntries<K(!new)>(values: seq<K>)
    ensures forall i | 0 <= i < |GroupCount(values)| ::
      GroupCount(values)[i].count == multiset(values)[GroupCount(values)[i].key] > 0
    ensures forall k | k in values :: exists i | 0 <= i < |GroupCount(values)| :: GroupCount(values)[i].key == k
  {
    var groups := GroupCount(values);
    forall i | 0 <= i < |groups| ensures groups[i].count == multiset(values)[groups[i].key] > 0 {
      CountOfEntry(groups, i);
    }
    forall k | k in values ensures exists i | 0 <= i < |groups| :: groups[i].key == k {
      var g := GroupFor(values, k);
      assert groups[g].key == k;
    }
  }

  lemma CountOfEntry<K>(groups: seq<Group<K>>, i: nat)
    requires DistinctKeys(groups) && i < |groups|
    ensures CountOf(groups, groups[i].key) == groups[i].count
  {
    if i > 0 {
      CountOfEntry(groups[1..], i - 1);
    }
  }

  lemma CountOfPositive<K>(groups: seq<Group<K>>, k: K)
    requires CountOf(groups, k) > 0
    ensures exists i | 0 <= i < |groups| :: groups[i].key == k
  {
    if groups[0].key != k {
      CountOfPositive(groups[1..], k);
      var i :| 0 <= i < |groups[1..]| && groups[1..][i].key == k;
      assert groups[i + 1].key == k;
    }
  }

  /** A page of sorted rows is itself sorted, holds only rows of the input,
      and is the whole input when it starts at 0 and the limit covers it. */
  lemma SortedPage<T>(rows: seq<T>, key: T -> int, skip: nat, limit: nat)
    ensures var page := Page(SortDesc(rows, key), skip, limit);
      && SortedDesc(page, key)
      && (forall i | 0 <= i < |page| :: page[i] in rows)
      && (skip == 0 && limit >= |rows| ==> multiset(page) == multiset(rows))
  {
    var sorted := SortDesc(rows, key);
    var page := Page(sorted, skip, limit);
    forall i | 0 <= i < |page| ensures page[i] in rows {
      assert page[i] == sorted[skip + i];
      assert sorted[skip + i] in multiset(rows);
    }
    if skip == 0 && limit >= |rows| {
      assert page == sorted;
    }
  }

  /** The first n groups by count, as `group_by(...).order_by(count desc).limit(n)`. */
  function TopGroups<K(==,!new)>(values: seq<K>, n: nat): (top: seq<Group<K>>)
    ensures |top| <= n
    ensures top == [] <==> n == 0 || values == []
  {
    var groups := GroupCount(values);
    assert values != [] ==> groups != [] by {
      if groups == [] { assert Total(groups) == 0; }
    }
    Page(SortDesc(groups, CountKey), 0, n)
  }

  /** A request that sends neither `skip` nor `limit` gets the first 100 rows,
      or all of them when there are fewer. */
  lemma DefaultPage<T>(rows: seq<T>)
    ensures Page(rows, DefaultSkip, DefaultLimit) == rows[..Min(DefaultLimit, |rows|)]
  {
  }

  /** Every row of the sorted sequence comes from the input. */
  lemma SortedFrom<T>(rows: seq<T>, key: T -> int, i: nat) returns (g: nat)
    requires i < |SortDesc(rows, key)|
    ensures g < |rows| && rows[g] == SortDesc(rows, key)[i]
  {
    var sorted := SortDesc(rows, key);
    assert sorted[i] in multiset(rows);
    g :| 0 <= g < |rows| && rows[g] == sorted[i];
  }

  /** Every row of the input has a place in the sorted sequence. */
  lemma SortedTo<T>(rows: seq<T>, key: T -> int, g: nat) returns (j: nat)
    requires g < |rows|
    ensures j < |SortDesc(rows, key)| && SortDesc(rows, key)[j] == rows[g]
  {
    var sorted := SortDesc(rows, key);
    assert rows[g] in multiset(sorted);
    j :| 0 <= j < |sorted| && sorted[j] == rows[g];
  }

  /** A value that occurs has its group, counting its rows. */
  lemma GroupFor<K(!new)>(values: seq<K>, v: K) returns (g: nat)
    requires v in values
    ensures g < |GroupCount(values)|
    ensures GroupCount(values)[g].key == v && GroupCount(values)[g].count == multiset(values)[v]
  {
    var groups := GroupCount(values);
    assert v in multiset(values);
    CountOfPositive(groups, v);
    g :| 0 <= g < |groups| && groups[g].key == v;
    CountOfEntry(groups, g);
  }

  /** Each group, after sorting, still counts the rows with its value. */
  lemma SortedGroupEntry<K(!new)>(values: seq<K>)
    ensures forall i | 0 <= i < |SortDesc(GroupCount(values), CountKey)| ::
      SortDesc(GroupCount(values), CountKey)[i].count
        == multiset(values)[SortDesc(GroupCount(values), CountKey)[i].key] > 0
  {
    var groups := GroupCount(values);
    var sorted := SortDesc(groups, CountKey);
    forall i | 0 <= i < |sorted| ensures sorted[i].count == multiset(values)[sorted[i].key] > 0 {
      var g := SortedFrom(groups, CountKey, i);
      CountOfEntry(groups, g);
    }
  }

  /** Each of the top groups counts the rows with its value. */
  lemma TopGroupsCount<K(!new)>(values: seq<K>, n: nat)
    ensures var top := TopGroups(values, n);
      && |top| <= n
      && SortedDesc(top, CountKey)
      && forall i | 0 <= i < |top| :: top[i].count == multiset(values)[top[i].key] > 0
  {
    var sorted := SortDesc(GroupCount(values), CountKey);
    var top := TopGroups(values, n);
    SortedGroupEntry(values);
    forall i | 0 <= i < |top| ensures top[i].count == multiset(values)[top[i].key] > 0 {
      assert top[i] == sorted[i];
    }
    forall i, j | 0 <= i < j < |top| ensures CountKey(top[i]) >= CountKey(top[j]) {
      assert top[i] == sorted[i] && top[j] == sorted[j];
    }
  }

  /** A value that occurs has a group somewhere in the sorted groups. */
  lemma SortedGroupFor<K(!new)>(values: seq<K>, v: K) returns (j: nat)
    requires v in values
    ensures var sorted := SortDesc(GroupCount(values), CountKey);
      j < |sorted| && sorted[j].key == v && sorted[j].count == multiset(values)[v]
  {
    var g := GroupFor(values, v);
    j := SortedTo(GroupCount(values), CountKey, g);
  }

  /** With a positive limit, the top groups are empty exactly when there are
      no rows, and the first of them has the largest count of all values. */
  lemma TopGroupFirst<K(!new)>(values: seq<K>, n: nat, v: K)
    requires n > 0
    ensures TopGroups(values, n) == [] <==> values == []
    ensures TopGroups(values, n) != [] ==> multiset(values)[v] <= TopGroups(values, n)[0].count
  {
    var sorted := SortDesc(GroupCount(values), CountKey);
    if values != [] {
      var j := SortedGroupFor(values, values[0]);
      assert TopGroups(values, n)[0] == sorted[0];
    }
    if v in values {
      var j := SortedGroupFor(values, v);
      assert TopGroups(values, n)[0] == sorted[0];
    }
  }

  /** A value left out of the top n occurs no more often than any value shown,
      and is only left out when n groups are shown. */
  lemma TopGroupsLeaveOutSmaller<K(!new)>(values: seq<K>, n: nat, v: K)
    requires v in values
    requires forall i | 0 <= i < |TopGroups(values, n)| :: TopGroups(values, n)[i].key != v
    ensures |TopGroups(values, n)| == n
    ensures forall i | 0 <= i < n :: multiset(values)[v] <= TopGroups(values, n)[i].count
  {
    var sorted := SortDesc(GroupCount(values), CountKey);
    var j := SortedGroupFor(values, v);
    var top := TopGroups(values, n);
    assert top == Page(sorted, 0, n);
    PageHolds(sorted, n, j);
    assert n <= j;
    forall i | 0 <= i < n ensures multiset(values)[v] <= top[i].count {
      assert top[i] == sorted[i];
      assert CountKey(sorted[i]) >= CountKey(sorted[j]);
    }
  }

  /** A first page of n rows holds each of the first n rows. */
  lemma PageHolds<T>(rows: seq<T>, n: nat, j: nat)
    requires j < |rows|
    ensures j < n ==> exists i | 0 <= i < |Page(rows, 0, n)| :: Page(rows, 0, n)[i] == rows[j]
  {
    if j < n {
      assert Page(rows, 0, n)[j] == rows[j];
    }
  }
}
