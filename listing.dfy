/**
 * Listing incidents: the optional exact-match filters of the list query,
 * applied one after the other to the stored records, then the in-place
 * sort by `createdAt`, newest first, that keeps records with equal keys in
 * store order (backend/backend.py, `list_incidents`).
 */
module Listing {
  import opened Wrappers
  import opened Text
  import opened Incidents

  /** The query-string arguments; `None` when the argument is not in the URL. */
  datatype Query = Query(
    category: Option<string>,
    status: Option<string>,
    active: Option<string>,
    device: Option<string>)

  function CategoryIs(c: string): Incident -> bool {
    (r: Incident) => r.category == Some(c)
  }

  function StatusIs(st: string): Incident -> bool {
    (r: Incident) => r.status == Some(st)
  }

  /** An active incident is one whose status is not "Resolved". */
  const IsActive: Incident -> bool := (r: Incident) => r.status != Some("Resolved")

  function DeviceIs(d: string): Incident -> bool {
    (r: Incident) => r.reportedByDeviceId == Some(d)
  }

  /** The four comprehensions of the list handler, each run only when its argument is set. */
  function FilterByQuery(s: seq<Incident>, q: Query): seq<Incident> {
    var s1 := if Truthy(q.category) then Keep(s, CategoryIs(q.category.value)) else s;
    var s2 := if Truthy(q.status) then Keep(s1, StatusIs(q.status.value)) else s1;
    var s3 := if q.active == Some("1") then Keep(s2, IsActive) else s2;
    if Truthy(q.device) then Keep(s3, DeviceIs(q.device.value)) else s3
  }

  /**
   * The filters as one condition: every supplied filter holds, and an
   * absent or empty argument does not restrict.
   */
  predicate Matches(q: Query, r: Incident) {
    && (Truthy(q.category) ==> r.category == q.category)
    && (Truthy(q.status) ==> r.status == q.status)
    && (q.active == Some("1") ==> r.status != Some("Resolved"))
    && (Truthy(q.device) ==> r.reportedByDeviceId == q.device)
  }

  function MatchesQuery(q: Query): Incident -> bool {
    (r: Incident) => Matches(q, r)
  }

  /** One optional filter stage on top of the records already kept by `acc`. */
  lemma Stage(s: seq<Incident>, t: seq<Incident>, on: bool, p: Incident -> bool,
              acc: Incident -> bool, next: Incident -> bool)
    requires t == Keep(s, acc)
    requires forall x :: next(x) == (acc(x) && (on ==> p(x)))
    ensures (if on then Keep(t, p) else t) == Keep(s, next)
  {
    if on {
      KeepThen(s, acc, p, next);
    } else {
      KeepSame(s, acc, next);
    }
  }

  /** Running the filters one after the other keeps exactly the records that match them all, in store order. */
  lemma FilterByQueryMatches(s: seq<Incident>, q: Query)
    ensures FilterByQuery(s, q) == Keep(s, MatchesQuery(q))
  {
    var m0: Incident -> bool := (r: Incident) => true;
    var m1: Incident -> bool := (r: Incident) => Truthy(q.category) ==> r.category == q.category;
    var m2: Incident -> bool := (r: Incident) => m1(r) && (Truthy(q.status) ==> r.status == q.status);
    var m3: Incident -> bool := (r: Incident) => m2(r) && (q.active == Some("1") ==> r.status != Some("Resolved"));
    KeepAll(s, m0);
    Stage(s, s, Truthy(q.category), CategoryIs(q.category.GetOr("")), m0, m1);
    var s1 := if Truthy(q.category) then Keep(s, CategoryIs(q.category.value)) else s;
    Stage(s, s1, Truthy(q.status), StatusIs(q.status.GetOr("")), m1, m2);
    var s2 := if Truthy(q.status) then Keep(s1, StatusIs(q.status.value)) else s1;
    Stage(s, s2, q.active == Some("1"), IsActive, m2, m3);
    var s3 := if q.active == Some("1") then Keep(s2, IsActive) else s2;
    Stage(s, s3, Truthy(q.device), DeviceIs(q.device.GetOr("")), m3, MatchesQuery(q));
  }

  /** Non-increasing by `createdAt` (a missing one counts as ""). */
  predicate SortedDesc(s: seq<Incident>) {
    forall i, j :: 0 <= i < j < |s| ==> AtMost(Key(s[j]), Key(s[i]))
  }

  function HasKey(k: string): Incident -> bool {
    (r: Incident) => Key(r) == k
  }

  /** Places `x` after every element whose key is at least its own. */
  function Insert(s: seq<Incident>, x: Incident): seq<Incident>
    decreases |s|
  {
    if s == [] then [x]
    else if AtMost(Key(x), Key(s[|s| - 1])) then s + [x]
    else Insert(s[..|s| - 1], x) + [s[|s| - 1]]
  }

  /**
   * The specification of `res.sort(key=lambda r: r.get('createdAt', ''), reverse=True)`:
   * insertion of each record, in store order, into the sorted prefix.
   */
  function StableSortDesc(s: seq<Incident>): seq<Incident>
    decreases |s|
  {
    if s == [] then [] else Insert(StableSortDesc(s[..|s| - 1]), s[|s| - 1])
  }

  lemma {:induction false} InsertPermutes(s: seq<Incident>, x: Incident)
    ensures multiset(Insert(s, x)) == multiset(s) + multiset{x}
    decreases |s|
  {
    if s != [] && !AtMost(Key(x), Key(s[|s| - 1])) {
      var init := s[..|s| - 1];
      assert s == init + [s[|s| - 1]];
      InsertPermutes(init, x);
    }
  }

  /** The sort is a permutation of its input. */
  lemma {:induction false} StableSortDescPermutes(s: seq<Incident>)
    ensures multiset(StableSortDesc(s)) == multiset(s)
    decreases |s|
  {
    if s != [] {
      var init := s[..|s| - 1];
      assert s == init + [s[|s| - 1]];
      StableSortDescPermutes(init);
      InsertPermutes(StableSortDesc(init), s[|s| - 1]);
    }
  }

  /** Appending a record whose key is at most every key present keeps the order. */
  lemma SortedAppend(t: seq<Incident>, y: Incident)
    requires SortedDesc(t)
    requires forall z :: z in t ==> AtMost(Key(y), Key(z))
    ensures SortedDesc(t + [y])
  {
    var r := t + [y];
    forall i, j | 0 <= i < j < |r|
      ensures AtMost(Key(r[j]), Key(r[i]))
    {
      if j == |t| {
        assert r[i] == t[i] && t[i] in t;
      }
    }
  }

  lemma {:induction false} InsertSorted(s: seq<Incident>, x: Incident)
    requires SortedDesc(s)
    ensures SortedDesc(Insert(s, x))
    decreases |s|
  {
    if s != [] {
      var n := |s|;
      var init, last := s[..n - 1], s[n - 1];
      if AtMost(Key(x), Key(last)) {
        forall z | z in s
          ensures AtMost(Key(x), Key(z))
        {
          var k :| 0 <= k < n && s[k] == z;
          if k < n - 1 {
            AtMostTransitive(Key(x), Key(last), Key(z));
          }
        }
        SortedAppend(s, x);
      } else {
        InsertSorted(init, x);
        InsertPermutes(init, x);
        AtMostTotal(Key(x), Key(last));
        forall z | z in Insert(init, x)
          ensures AtMost(Key(last), Key(z))
        {
          assert z in multiset(Insert(init, x));
          if z != x {
            assert z in init;
            var k :| 0 <= k < n - 1 && init[k] == z;
            assert s[k] == z;
          }
        }
        SortedAppend(Insert(init, x), last);
      }
    }
  }

  lemma {:induction false} StableSortDescSorted(s: seq<Incident>)
    ensures SortedDesc(StableSortDesc(s))
    decreases |s|
  {
    if s != [] {
      StableSortDescSorted(s[..|s| - 1]);
      InsertSorted(StableSortDesc(s[..|s| - 1]), s[|s| - 1]);
    }
  }

  /** Among the records with any one key, `x` lands after those already present. */
  lemma SwapDisjoint(a: seq<Incident>, x: seq<Incident>, l: seq<Incident>)
    requires x == [] || l == []
    ensures (a + x) + l == (a + l) + x
  {
    if x == [] {
      assert a + x == a && (a + l) + x == a + l;
    } else {
      assert (a + x) + l == a + x && a + l == a;
    }
  }

  lemma {:induction false} InsertKeepsTies(s: seq<Incident>, x: Incident, k: string)
    ensures Keep(Insert(s, x), HasKey(k)) == Keep(s, HasKey(k)) + Keep([x], HasKey(k))
    decreases |s|
  {
    var p := HasKey(k);
    if s == [] {
      assert Keep(s, p) == [];
    } else {
      var n := |s|;
      var last := s[n - 1];
      if AtMost(Key(x), Key(last)) {
        KeepAppend(s, [x], p);
      } else {
        var init := s[..n - 1];
        assert s == init + [last];
        AtMostReflexive(Key(x));
        calc {
          Keep(Insert(s, x), p);
          Keep(Insert(init, x) + [last], p);
          { KeepAppend(Insert(init, x), [last], p); }
          Keep(Insert(init, x), p) + Keep([last], p);
          { InsertKeepsTies(init, x, k); }
          (Keep(init, p) + Keep([x], p)) + Keep([last], p);
          { SwapDisjoint(Keep(init, p), Keep([x], p), Keep([last], p)); }
          (Keep(init, p) + Keep([last], p)) + Keep([x], p);
          { KeepAppend(init, [last], p); }
          Keep(s, p) + Keep([x], p);
        }
      }
    }
  }

  /** Stability: the records sharing a key keep their store order. */
  lemma {:induction false} StableSortDescKeepsTies(s: seq<Incident>, k: string)
    ensures Keep(StableSortDesc(s), HasKey(k)) == Keep(s, HasKey(k))
    decreases |s|
  {
    if s != [] {
      var init, last := s[..|s| - 1], s[|s| - 1];
      var t := StableSortDesc(init);
      var p := HasKey(k);
      calc {
        Keep(StableSortDesc(s), p);
        Keep(Insert(t, last), p);
        { InsertKeepsTies(t, last, k); }
        Keep(t, p) + Keep([last], p);
        { StableSortDescKeepsTies(init, k); }
        Keep(init, p) + Keep([last], p);
        { KeepAppend(init, [last], p); }
        Keep(init + [last], p);
        { assert init + [last] == s; }
        Keep(s, p);
      }
    }
  }

  lemma LeadingKeyKept(t: seq<Incident>)
    requires t != []
    ensures Keep(t, HasKey(Key(t[0]))) != []
  {
    assert t[0] in Keep(t, HasKey(Key(t[0])));
  }

  /** Two sorted sequences with the same records per key start with the same key. */
  lemma SameLeadingKey(t1: seq<Incident>, t2: seq<Incident>)
    requires t1 != [] && t2 != []
    requires SortedDesc(t1) && SortedDesc(t2)
    requires forall k :: Keep(t1, HasKey(k)) == Keep(t2, HasKey(k))
    ensures Key(t1[0]) == Key(t2[0])
  {
    var k1, k2 := Key(t1[0]), Key(t2[0]);
    assert t2[0] in Keep(t2, HasKey(k2));
    var j1 :| 0 <= j1 < |t1| && t1[j1] == t2[0];
    assert t1[0] in Keep(t1, HasKey(k1));
    var j2 :| 0 <= j2 < |t2| && t2[j2] == t1[0];
    AtMostReflexive(k1);
    AtMostReflexive(k2);
    assert AtMost(k2, k1) && AtMost(k1, k2);
    AtMostAntisymmetric(k1, k2);
  }

  /** Two sorted sequences with the same records per key start with the same record. */
  lemma SameHead(t1: seq<Incident>, t2: seq<Incident>)
    requires t1 != [] && t2 != []
    requires SortedDesc(t1) && SortedDesc(t2)
    requires forall k :: Keep(t1, HasKey(k)) == Keep(t2, HasKey(k))
    ensures t1[0] == t2[0]
  {
    SameLeadingKey(t1, t2);
    var k0 := Key(t1[0]);
    assert Keep(t1, HasKey(k0)) == [t1[0]] + Keep(t1[1..], HasKey(k0));
    assert Keep(t2, HasKey(k0)) == [t2[0]] + Keep(t2[1..], HasKey(k0));
    assert t1[0] == Keep(t1, HasKey(k0))[0] == Keep(t2, HasKey(k0))[0] == t2[0];
  }

  /** Removing a common first record keeps the records of each key in agreement. */
  lemma DropCommonHead(t1: seq<Incident>, t2: seq<Incident>, k: string)
    requires t1 != [] && t2 != [] && t1[0] == t2[0]
    requires Keep(t1, HasKey(k)) == Keep(t2, HasKey(k))
    ensures Keep(t1[1..], HasKey(k)) == Keep(t2[1..], HasKey(k))
  {
    var h := if Key(t1[0]) == k then [t1[0]] else [];
    assert Keep(t1, HasKey(k)) == h + Keep(t1[1..], HasKey(k));
    assert Keep(t2, HasKey(k)) == h + Keep(t2[1..], HasKey(k));
    assert (h + Keep(t1[1..], HasKey(k)))[|h|..] == Keep(t1[1..], HasKey(k));
    assert (h + Keep(t2[1..], HasKey(k)))[|h|..] == Keep(t2[1..], HasKey(k));
  }

  /**
   * There is one arrangement that is sorted and keeps every key's records in
   * a given order: two such sequences are equal.
   */
  lemma {:induction false} StableArrangementUnique(t1: seq<Incident>, t2: seq<Incident>)
    requires SortedDesc(t1) && SortedDesc(t2)
    requires forall k :: Keep(t1, HasKey(k)) == Keep(t2, HasKey(k))
    ensures t1 == t2
    decreases |t1|
  {
    if t1 != [] {
      LeadingKeyKept(t1);
    }
    if t2 != [] {
      LeadingKeyKept(t2);
    }
    if t1 == [] && t2 != [] {
      assert false;
    } else if t1 != [] && t2 == [] {
      assert false;
    } else if t1 != [] {
      SameHead(t1, t2);
      forall k
        ensures Keep(t1[1..], HasKey(k)) == Keep(t2[1..], HasKey(k))
      {
        DropCommonHead(t1, t2, k);
      }
      StableArrangementUnique(t1[1..], t2[1..]);
      assert t1 == [t1[0]] + t1[1..] && t2 == [t2[0]] + t2[1..];
    }
  }

  /**
   * Any stable sort by `createdAt`, newest first, returns `StableSortDesc`:
   * the insertion sort of this model and the library sort of the source
   * agree on every input.
   */
  lemma StableSortIsUnique(s: seq<Incident>, t: seq<Incident>)
    requires SortedDesc(t)
    requires forall k :: Keep(t, HasKey(k)) == Keep(s, HasKey(k))
    ensures t == StableSortDesc(s)
  {
    StableSortDescSorted(s);
    forall k
      ensures Keep(t, HasKey(k)) == Keep(StableSortDesc(s), HasKey(k))
    {
      StableSortDescKeepsTies(s, k);
    }
    StableArrangementUnique(t, StableSortDesc(s));
  }

  /** One step of the inner loop: `x` moves left past a record with a smaller key. */
  lemma InsertShift(s: seq<Incident>, x: Incident, j: nat)
    requires 0 < j <= |s|
    requires !AtMost(Key(x), Key(s[j - 1]))
    requires Insert(s, x) == Insert(s[..j], x) + s[j..]
    ensures Insert(s, x) == Insert(s[..j - 1], x) + s[j - 1..]
  {
    assert s[..j][..j - 1] == s[..j - 1];
    assert Insert(s[..j], x) == Insert(s[..j - 1], x) + [s[j - 1]];
    assert s[j - 1..] == [s[j - 1]] + s[j..];
  }

  /** The inner loop stops where `x` belongs. */
  lemma InsertPlace(s: seq<Incident>, x: Incident, j: nat)
    requires j <= |s|
    requires j == 0 || AtMost(Key(x), Key(s[j - 1]))
    requires Insert(s, x) == Insert(s[..j], x) + s[j..]
    ensures Insert(s, x) == s[..j] + [x] + s[j..]
  {
    if j == 0 {
      assert s[..j] == [];
    }
  }

  lemma SortStep(s: seq<Incident>, i: nat)
    requires i < |s|
    ensures StableSortDesc(s[..i + 1]) == Insert(StableSortDesc(s[..i]), s[i])
  {
    assert s[..i + 1][..i] == s[..i];
  }

  /** The array contents when the inner loop ends, read as a sequence. */
  lemma InsertedLayout(cur: seq<Incident>, sorted: seq<Incident>, x: Incident, j: nat)
    requires j <= |sorted| < |cur|
    requires forall k :: 0 <= k < j ==> cur[k] == sorted[k]
    requires cur[j] == x
    requires forall k :: j < k <= |sorted| ==> cur[k] == sorted[k - 1]
    ensures cur[..|sorted| + 1] == sorted[..j] + [x] + sorted[j..]
  {
  }

  /**
   * One pass of the in-place insertion: `a[i]` moves left past the records
   * with a smaller key, each of which shifts one place right.
   */
  method InsertInto(a: array<Incident>, i: nat)
    requires i < a.Length
    modifies a
    ensures a[..i + 1] == Insert(old(a[..i]), old(a[i]))
    ensures forall k :: i < k < a.Length ==> a[k] == old(a[k])
  {
    var x := a[i];
    ghost var sorted := a[..i];
    var j := i;
    assert sorted[..j] == sorted && sorted[j..] == [];
    while j > 0 && !AtMost(Key(x), Key(a[j - 1]))
      invariant 0 <= j <= i
      invariant forall k :: 0 <= k < j ==> a[k] == sorted[k]
      invariant forall k :: j < k <= i ==> a[k] == sorted[k - 1]
      invariant forall k :: i < k < a.Length ==> a[k] == old(a[k])
      invariant Insert(sorted, x) == Insert(sorted[..j], x) + sorted[j..]
      decreases j
    {
      assert a[j - 1] == sorted[j - 1];
      InsertShift(sorted, x, j);
      a[j] := a[j - 1];
      j := j - 1;
    }
    InsertPlace(sorted, x, j);
    a[j] := x;
    InsertedLayout(a[..], sorted, x, j);
    assert a[..i + 1] == a[..][..i + 1];
  }

  /** The in-place stable sort, newest `createdAt` first. */
  method SortInPlace(a: array<Incident>)
    modifies a
    ensures a[..] == StableSortDesc(old(a[..]))
  {
    ghost var input := a[..];
    var i := 0;
    while i < a.Length
      invariant 0 <= i <= a.Length
      invariant a[..i] == StableSortDesc(input[..i])
      invariant forall k :: i <= k < a.Length ==> a[k] == input[k]
    {
      InsertInto(a, i);
      SortStep(input, i);
      i := i + 1;
    }
    assert input[..a.Length] == input;
  }

  /** What `list_incidents` returns for the stored records and a query. */
  function Listed(reports: seq<Incident>, q: Query): seq<Incident> {
    StableSortDesc(FilterByQuery(reports, q))
  }

  /**
   * The list result holds exactly the matching records, with their
   * multiplicities, ordered by `createdAt` non-increasing; records with equal
   * keys keep their store order.
   */
  lemma ListedProperties(reports: seq<Incident>, q: Query)
    ensures forall r :: r in Listed(reports, q) <==> r in reports && Matches(q, r)
    ensures multiset(Listed(reports, q)) == multiset(Keep(reports, MatchesQuery(q)))
    ensures SortedDesc(Listed(reports, q))
    ensures forall k :: Keep(Listed(reports, q), HasKey(k)) == Keep(Keep(reports, MatchesQuery(q)), HasKey(k))
  {
    var filtered := FilterByQuery(reports, q);
    FilterByQueryMatches(reports, q);
    StableSortDescSorted(filtered);
    StableSortDescPermutes(filtered);
    forall r
      ensures r in Listed(reports, q) <==> r in reports && Matches(q, r)
    {
      assert r in Listed(reports, q) <==> r in multiset(Listed(reports, q));
      assert r in filtered <==> r in multiset(filtered);
    }
    forall k
      ensures Keep(Listed(reports, q), HasKey(k)) == Keep(Keep(reports, MatchesQuery(q)), HasKey(k))
    {
      StableSortDescKeepsTies(filtered, k);
    }
  }

  /** `list_incidents` on a loaded snapshot: filter, copy, sort in place. */
  method ListIncidents(reports: seq<Incident>, q: Query) returns (res: seq<Incident>)
    ensures res == Listed(reports, q)
    ensures forall r :: r in res <==> r in reports && Matches(q, r)
    ensures SortedDesc(res)
  {
    var filtered := FilterByQuery(reports, q);
    var a := new Incident[|filtered|](i requires 0 <= i < |filtered| => filtered[i]);
    assert a[..] == filtered;
    SortInPlace(a);
    res := a[..];
    ListedProperties(reports, q);
  }
}
