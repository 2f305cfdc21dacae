/**
 * The mutating operations of the incident store (backend/backend.py,
 * `create_incident`, `update_incident`, `delete_incident`) on the loaded
 * `reports` list. The request fields, the generated id and the clock
 * readings are parameters; the store is the in-memory collection between
 * its load and its save.
 */
module Store {
  import opened Wrappers
  import opened Text
  import opened Incidents

  /** The multipart form fields of a create request; `None` when a field is not sent. */
  datatype CreateForm = CreateForm(
    title: Option<string>,
    description: Option<string>,
    category: Option<string>,
    department: Option<string>,
    lat: Option<string>,
    lng: Option<string>,
    reportedByDeviceId: Option<string>)

  /**
   * The recognised keys of a PATCH body: `None` when the key is absent,
   * `Some(None)` when it is JSON null, `Some(Some(v))` for a string. Every
   * falsy body (unparsable, null, `0`, `false`, `""`, `[]`) reads as no keys
   * at all; a truthy body that is not a JSON object is not part of this model.
   */
  datatype Patch = Patch(status: Option<Option<string>>, department: Option<Option<string>>)

  /** `location` is set only when both coordinates are non-empty and both parse. */
  function ParseLocation(lat: Option<string>, lng: Option<string>, parse: string -> Option<real>): (loc: Option<Location>)
    ensures loc.Some? <==> Truthy(lat) && Truthy(lng) && parse(lat.value).Some? && parse(lng.value).Some?
    ensures loc.Some? ==> loc.value == Location(parse(lat.value).value, parse(lng.value).value)
  {
    if Truthy(lat) && Truthy(lng) then
      match (parse(lat.value), parse(lng.value))
      case (Some(x), Some(y)) => Some(Location(x, y))
      case _ => None
    else None
  }

  /**
   * The record `create_incident` builds: a fresh id, status "Reported",
   * stripped title and description, category "Other" and department absent
   * when the form leaves them empty, and the two clock readings.
   */
  function NewIncident(form: CreateForm, imageUrl: Option<string>, id: string,
                       createdAt: string, updatedAt: string, parse: string -> Option<real>): (r: Incident)
    ensures r.id == Some(id) && r.status == Some("Reported")
    ensures r.title == Some(Strip(form.title.GetOr("")))
    ensures r.description == Some(Strip(form.description.GetOr("")))
    ensures Truthy(r.category)
    ensures Truthy(form.category) ==> r.category == form.category
    ensures !Truthy(form.category) ==> r.category == Some("Other")
    ensures r.department.Some? <==> Truthy(form.department)
    ensures r.department.Some? ==> r.department == form.department
    ensures r.location == ParseLocation(form.lat, form.lng, parse)
    ensures r.imageUrl == imageUrl && r.reportedByDeviceId == form.reportedByDeviceId
    ensures r.createdAt == Some(createdAt) && r.updatedAt == Some(updatedAt)
  {
    Incident(
      id := Some(id),
      title := Some(Strip(form.title.GetOr(""))),
      description := Some(Strip(form.description.GetOr(""))),
      category := if Truthy(form.category) then form.category else Some("Other"),
      department := if Truthy(form.department) then form.department else None,
      location := ParseLocation(form.lat, form.lng, parse),
      imageUrl := imageUrl,
      status := Some("Reported"),
      createdAt := Some(createdAt),
      updatedAt := Some(updatedAt),
      reportedByDeviceId := form.reportedByDeviceId)
  }

  /** Two records agree on every field an update leaves alone. */
  predicate SameExceptPatched(a: Incident, b: Incident) {
    && a.id == b.id && a.title == b.title && a.description == b.description
    && a.category == b.category && a.location == b.location && a.imageUrl == b.imageUrl
    && a.createdAt == b.createdAt && a.reportedByDeviceId == b.reportedByDeviceId
  }

  /** The in-place patch of the matched record. */
  function ApplyPatch(r: Incident, body: Patch, now: string): (p: Incident)
    ensures SameExceptPatched(r, p)
    ensures p.updatedAt == Some(now)
    ensures body.status.None? ==> p.status == r.status
    ensures body.status.Some? ==> p.status == body.status.value
    ensures body.department.None? ==> p.department == r.department
    ensures body.department.Some? ==> (p.department.Some? <==> Truthy(body.department.value))
    ensures body.department.Some? && p.department.Some? ==> p.department == body.department.value
  {
    var withStatus := if body.status.Some? then r.(status := body.status.value) else r;
    var withDepartment :=
      if body.department.Some? then
        withStatus.(department := if Truthy(body.department.value) then body.department.value else None)
      else withStatus;
    withDepartment.(updatedAt := Some(now))
  }

  /** The position of the first record whose id is `id`, if any. */
  function FirstWithId(s: seq<Incident>, id: string): (k: Option<nat>)
    ensures k.Some? ==> k.value < |s| && s[k.value].id == Some(id)
    ensures k.Some? ==> forall j :: 0 <= j < k.value ==> s[j].id != Some(id)
    ensures k.None? <==> forall j :: 0 <= j < |s| ==> s[j].id != Some(id)
  {
    if s == [] then None
    else if s[0].id == Some(id) then Some(0)
    else
      match FirstWithId(s[1..], id)
      case None => None
      case Some(k) => Some(k + 1)
  }

  /**
   * The collection after `update_incident`: only the first record with the
   * id is patched, every other record is left as it was, and an unknown id
   * changes nothing.
   */
  function Updated(s: seq<Incident>, id: string, body: Patch, now: string): (t: seq<Incident>)
    ensures |t| == |s|
    ensures FirstWithId(s, id).None? ==> t == s
    ensures forall j :: 0 <= j < |s| && FirstWithId(s, id) != Some(j) ==> t[j] == s[j]
    ensures forall j :: 0 <= j < |s| ==> SameExceptPatched(s[j], t[j])
    ensures FirstWithId(s, id).Some? ==>
      t[FirstWithId(s, id).value] == ApplyPatch(s[FirstWithId(s, id).value], body, now)
  {
    match FirstWithId(s, id)
    case None => s
    case Some(i) => s[i := ApplyPatch(s[i], body, now)]
  }

  function HasId(id: string): Incident -> bool {
    (r: Incident) => r.id == Some(id)
  }

  function LacksId(id: string): Incident -> bool {
    (r: Incident) => r.id != Some(id)
  }

  /** The comprehension of `delete_incident`: every record whose id differs, in order. */
  function WithoutId(s: seq<Incident>, id: string): seq<Incident> {
    Keep(s, LacksId(id))
  }

  /** Delete removes exactly the records carrying the id, as many as there are. */
  lemma DeleteCount(s: seq<Incident>, id: string)
    ensures |s| - |WithoutId(s, id)| == |Keep(s, HasId(id))|
    ensures forall r :: r in WithoutId(s, id) <==> r in s && r.id != Some(id)
  {
    KeepSplit(s, HasId(id), LacksId(id));
  }

  /** A second delete of the same id removes nothing and changes nothing. */
  lemma DeleteTwice(s: seq<Incident>, id: string)
    ensures WithoutId(WithoutId(s, id), id) == WithoutId(s, id)
    ensures |Keep(WithoutId(s, id), HasId(id))| == 0
  {
    KeepThen(s, LacksId(id), LacksId(id), LacksId(id));
    DeleteCount(WithoutId(s, id), id);
  }

  /** The loaded `data["reports"]` list of one request. */
  class IncidentStore {
    var reports: seq<Incident>

    constructor (loaded: seq<Incident>)
      ensures reports == loaded
    {
      reports := loaded;
    }

    /** `create_incident`: builds the record and appends it; earlier records are untouched. */
    method Create(form: CreateForm, imageUrl: Option<string>, id: string,
                  createdAt: string, updatedAt: string, parse: string -> Option<real>)
      returns (r: Incident)
      modifies this
      ensures r == NewIncident(form, imageUrl, id, createdAt, updatedAt, parse)
      ensures reports == old(reports) + [r]
    {
      r := NewIncident(form, imageUrl, id, createdAt, updatedAt, parse);
      reports := reports + [r];
    }

    /**
     * `update_incident`: patches the first record with the id and returns
     * it; `None` (not found) when no record has the id.
     */
    method Update(id: string, body: Patch, now: string) returns (r: Option<Incident>)
      modifies this
      ensures reports == Updated(old(reports), id, body, now)
      ensures FirstWithId(old(reports), id).None? ==> r.None?
      ensures FirstWithId(old(reports), id).Some? ==>
        var i := FirstWithId(old(reports), id).value;
        r == Some(ApplyPatch(old(reports)[i], body, now)) && reports[i] == r.value
    {
      var i := 0;
      while i < |reports|
        invariant 0 <= i <= |reports|
        invariant reports == old(reports)
        invariant forall j :: 0 <= j < i ==> reports[j].id != Some(id)
      {
        if reports[i].id == Some(id) {
          var patched := ApplyPatch(reports[i], body, now);
          reports := reports[i := patched];
          return Some(patched);
        }
        i := i + 1;
      }
      return None;
    }

    /** `delete_incident`: keeps the records with another id and reports how many went. */
    method Delete(id: string) returns (deleted: nat)
      modifies this
      ensures reports == WithoutId(old(reports), id)
      ensures deleted == |old(reports)| - |reports|
      ensures deleted == |Keep(old(reports), HasId(id))|
    {
      var before := |reports|;
      DeleteCount(reports, id);
      reports := WithoutId(reports, id);
      deleted := before - |reports|;
    }
  }
}
