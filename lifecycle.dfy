/**
 * What one request's change means for the next request's read: the
 * operations of the store composed with the list query.
 */
module Lifecycle {
  import opened Wrappers
  import opened Incidents
  import opened Listing
  import opened Store

  const NoFilter := Query(None, None, None, None)
  const ActiveOnly := Query(None, None, Some("1"), None)

  /** A stored record that matches the query is listed. */
  lemma Listable(s: seq<Incident>, q: Query, r: Incident)
    requires r in s && Matches(q, r)
    ensures r in Listed(s, q)
  {
    ListedProperties(s, q);
  }

  /** A created record shows up in the unfiltered list and in the active list, as "Reported". */
  lemma CreateThenList(s: seq<Incident>, form: CreateForm, imageUrl: Option<string>, id: string,
                       createdAt: string, updatedAt: string, parse: string -> Option<real>)
    ensures var r := NewIncident(form, imageUrl, id, createdAt, updatedAt, parse);
      && r.status == Some("Reported")
      && r in Listed(s + [r], NoFilter)
      && r in Listed(s + [r], ActiveOnly)
      && r in Listed(s + [r], Query(None, Some("Reported"), None, None))
  {
    var r := NewIncident(form, imageUrl, id, createdAt, updatedAt, parse);
    assert r in s + [r];
    Listable(s + [r], NoFilter, r);
    Listable(s + [r], ActiveOnly, r);
    Listable(s + [r], Query(None, Some("Reported"), None, None), r);
  }

  /**
   * Setting the status to "Resolved" drops the patched record from the
   * active list and puts it in the "Resolved" list.
   */
  lemma ResolveThenList(s: seq<Incident>, id: string, now: string)
    requires FirstWithId(s, id).Some?
    ensures var i := FirstWithId(s, id).value;
      var t := Updated(s, id, Patch(Some(Some("Resolved")), None), now);
      && t[i].id == Some(id)
      && t[i] !in Listed(t, ActiveOnly)
      && t[i] in Listed(t, Query(None, Some("Resolved"), None, None))
  {
    var t := Updated(s, id, Patch(Some(Some("Resolved")), None), now);
    ListedProperties(t, ActiveOnly);
    ListedProperties(t, Query(None, Some("Resolved"), None, None));
  }

  /** After a delete no list, whatever its filters, shows a record with that id. */
  lemma DeleteThenList(s: seq<Incident>, id: string, q: Query)
    ensures forall r :: r in Listed(WithoutId(s, id), q) ==> r.id != Some(id)
  {
    ListedProperties(WithoutId(s, id), q);
    DeleteCount(s, id);
  }

  /** A record appended under an id the store does not hold is the first, and only, one with that id. */
  lemma AppendFreshId(s: seq<Incident>, a: Incident, id: string)
    requires forall r :: r in s ==> r.id != Some(id)
    requires a.id == Some(id)
    ensures FirstWithId(s + [a], id) == Some(|s|)
    ensures |Keep(s + [a], HasId(id))| == 1
  {
    assert forall j :: 0 <= j < |s| ==> (s + [a])[j] in s;
    KeepAppend(s, [a], HasId(id));
    KeepNone(s, HasId(id));
  }

  /** Patching the only record with the id, which sits at the end, patches the last record. */
  lemma PatchAppended(s: seq<Incident>, a: Incident, id: string, body: Patch, now: string)
    requires forall r :: r in s ==> r.id != Some(id)
    requires a.id == Some(id)
    ensures Updated(s + [a], id, body, now) == s + [ApplyPatch(a, body, now)]
  {
    AppendFreshId(s, a, id);
    assert (s + [a])[|s| := ApplyPatch(a, body, now)] == s + [ApplyPatch(a, body, now)];
  }

  /** Deleting the only record with the id removes one record and hides the id from the list. */
  lemma DeleteAppended(s: seq<Incident>, b: Incident, id: string)
    requires forall r :: r in s ==> r.id != Some(id)
    requires b.id == Some(id)
    ensures |s + [b]| - |WithoutId(s + [b], id)| == 1
    ensures forall r :: r in Listed(WithoutId(s + [b], id), NoFilter) ==> r.id != Some(id)
  {
    AppendFreshId(s, b, id);
    DeleteCount(s + [b], id);
    DeleteThenList(s + [b], id, NoFilter);
  }

  /**
   * The walk-through of a report's life, for an id not yet in the store:
   * create a flood report with coordinates, assign a department, delete
   * it. The location is the parsed pair, the department is the one sent,
   * the delete reports one record, and the list no longer shows the id.
   */
  lemma CreateAssignDelete(s: seq<Incident>, form: CreateForm, id: string,
                           createdAt: string, updatedAt: string, now: string,
                           parse: string -> Option<real>)
    requires forall r :: r in s ==> r.id != Some(id)
    requires form.category == Some("Flood")
    requires Truthy(form.lat) && Truthy(form.lng)
    requires parse(form.lat.value).Some? && parse(form.lng.value).Some?
    ensures var a := NewIncident(form, None, id, createdAt, updatedAt, parse);
      var t1 := s + [a];
      var t2 := Updated(t1, id, Patch(None, Some(Some("Municipal"))), now);
      var t3 := WithoutId(t2, id);
      && a.category == Some("Flood")
      && a.location == Some(Location(parse(form.lat.value).value, parse(form.lng.value).value))
      && a.imageUrl == None
      && FirstWithId(t1, id) == Some(|s|)
      && t2[|s|].department == Some("Municipal")
      && |t2| - |t3| == 1
      && forall r :: r in Listed(t3, NoFilter) ==> r.id != Some(id)
  {
    var a := NewIncident(form, None, id, createdAt, updatedAt, parse);
    var assign := Patch(None, Some(Some("Municipal")));
    AppendFreshId(s, a, id);
    PatchAppended(s, a, id, assign, now);
    var b := ApplyPatch(a, assign, now);
    DeleteAppended(s, b, id);
  }
}
