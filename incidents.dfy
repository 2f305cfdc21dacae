/**
 * The incident record as the store keeps it (one JSON object per incident
 * under the `reports` key), and the order-preserving filter that every
 * list comprehension over the records is an instance of.
 */
module Incidents {
  import opened Wrappers

  /** A parsed `{lat, lng}` pair; float64 coordinates are modelled as reals. */
  datatype Location = Location(lat: real, lng: real)

  /**
   * One incident. Every field is optional because a record loaded from
   * disk may lack any key; `None` stands for a missing key and for JSON
   * null alike, which is what `dict.get` returns for both.
   */
  datatype Incident = Incident(
    id: Option<string>,
    title: Option<string>,
    description: Option<string>,
    category: Option<string>,
    department: Option<string>,
    location: Option<Location>,
    imageUrl: Option<string>,
    status: Option<string>,
    createdAt: Option<string>,
    updatedAt: Option<string>,
    reportedByDeviceId: Option<string>)

  /** Python truthiness of an optional string: present and non-empty. */
  predicate Truthy(o: Option<string>) {
    o.Some? && o.value != ""
  }

  /** The sort key of the list operation: `r.get('createdAt', '')`. */
  function Key(r: Incident): string {
    r.createdAt.GetOr("")
  }

  /** `[x for x in s if p(x)]`: the elements of `s` satisfying `p`, in their original order. */
  function Keep<T(!new)>(s: seq<T>, p: T -> bool): (r: seq<T>)
    ensures |r| <= |s|
    ensures forall x :: x in r <==> x in s && p(x)
  {
    if s == [] then [] else (if p(s[0]) then [s[0]] else []) + Keep(s[1..], p)
  }

  lemma {:induction false} KeepAppend<T(!new)>(a: seq<T>, b: seq<T>, p: T -> bool)
    ensures Keep(a + b, p) == Keep(a, p) + Keep(b, p)
    decreases |a|
  {
    if a == [] {
      assert a + b == b;
    } else {
      assert (a + b)[0] == a[0] && (a + b)[1..] == a[1..] + b;
      KeepAppend(a[1..], b, p);
    }
  }

  /** Filtering with a predicate that holds everywhere changes nothing. */
  lemma {:induction false} KeepAll<T(!new)>(s: seq<T>, p: T -> bool)
    requires forall x :: p(x)
    ensures Keep(s, p) == s
    decreases |s|
  {
    if s != [] {
      KeepAll(s[1..], p);
    }
  }

  /** Filtering with a predicate that no element satisfies leaves nothing. */
  lemma {:induction false} KeepNone<T(!new)>(s: seq<T>, p: T -> bool)
    requires forall x :: x in s ==> !p(x)
    ensures Keep(s, p) == []
    decreases |s|
  {
    if s != [] {
      assert forall x :: x in s[1..] ==> x in s;
      KeepNone(s[1..], p);
    }
  }

  /** The filter depends only on the values of its predicate. */
  lemma {:induction false} KeepSame<T(!new)>(s: seq<T>, p: T -> bool, q: T -> bool)
    requires forall x :: p(x) == q(x)
    ensures Keep(s, p) == Keep(s, q)
    decreases |s|
  {
    if s != [] {
      KeepSame(s[1..], p, q);
    }
  }

  /** Two filters in a row are one filter by the conjunction. */
  lemma {:induction false} KeepThen<T(!new)>(s: seq<T>, p: T -> bool, q: T -> bool, pq: T -> bool)
    requires forall x :: pq(x) == (p(x) && q(x))
    ensures Keep(Keep(s, p), q) == Keep(s, pq)
    decreases |s|
  {
    if s != [] {
      var head := if p(s[0]) then [s[0]] else [];
      KeepAppend(head, Keep(s[1..], p), q);
      KeepThen(s[1..], p, q, pq);
    }
  }

  /** Every element is kept by exactly one of a predicate and its negation. */
  lemma {:induction false} KeepSplit<T(!new)>(s: seq<T>, p: T -> bool, notP: T -> bool)
    requires forall x :: notP(x) == !p(x)
    ensures |Keep(s, p)| + |Keep(s, notP)| == |s|
    decreases |s|
  {
    if s != [] {
      KeepSplit(s[1..], p, notP);
    }
  }
}
