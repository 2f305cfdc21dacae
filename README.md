# Incident store of the disaster-alert backend, in Dafny

The backend (`backend/backend.py`) keeps citizen incident reports in one JSON
document, `{"reports": [...]}`. Each HTTP handler loads the list, runs one
operation on it and, for a change, saves it back. This project models those
operations on the loaded list:

- **list**: the optional exact-match filters (`category`, `status`,
  `active=1`, `reportedByDeviceId`), then the in-place sort by `createdAt`,
  newest first.
- **create**: builds a record from the form fields and appends it.
- **update**: patches `status` and/or `department` of the first record with
  the id, and refreshes `updatedAt`.
- **delete**: removes every record with the id and returns how many went.
- **monthly analytics**: counts, per category, the records created in the
  current month and year.

Files:

- `wrappers.dfy`: the `Option` type.
- `text.dfy`: Python's `str.strip()` and the code-point order of `str`.
- `incidents.dfy`: the record, and `Keep`, the order-preserving filter that
  every list comprehension of the handlers is.
- `listing.dfy`: the list handler. `SortInPlace` is an insertion sort on an
  array, proved equal to the specification `StableSortDesc`. That function
  is proved sorted, a permutation and stable. `StableSortIsUnique` shows it is
  the only stable result, so it is also what Python's own sort returns.
- `store.dfy`: class `IncidentStore` over the loaded `reports` list, with
  `Create`, `Update` and `Delete`, and the functions that specify them.
- `analytics.dfy`: the monthly counting loop and its specification `Tally`.
- `lifecycle.dfy`: how create, update and delete show up in later lists.

Inputs the code reads from outside are parameters:

- the generated id;
- the clock readings;
- the uploaded image's URL;
- the float parser for coordinates (`string -> Option<real>`);
- the ISO-8601 parser for timestamps (`string -> Option<MonthYear>`).

A record field is `Option`: `None` stands both for a missing key and for
JSON null, as `dict.get` returns `None` for both.

Three behaviours of the code the model keeps:

- `create_incident` reads the clock twice (lines 101-102). `createdAt` and
  `updatedAt` are two parameters, and nothing says they are equal.
- `update_incident` touches `department` only when the body has that key
  (line 117). An absent key leaves it as it was; a present falsy value clears
  it.
- `delete_incident` returns the number of records that carried the id. That
  number can be above 1, because nothing makes ids unique.

## Model

| member | source | states |
|---|---|---|
| `Text.Strip` | backend/backend.py:71-72 | title and description are `s.strip()`: the infix left after removing whitespace from both ends, where everything removed is whitespace and the result neither starts nor ends with whitespace |
| `Text.StripIdempotent` | backend/backend.py:71-72 | stripping an already stripped title changes nothing |
| `Incidents.Keep` | backend/backend.py:57-64 | a comprehension `[r for r in res if p(r)]` keeps exactly the elements satisfying `p`, never more than it was given |
| `Listing.FilterByQueryMatches` | backend/backend.py:56-64 | `FilterByQuery`, the four conditional comprehensions run one after another, keep, in store order, exactly the records that satisfy every supplied filter; an absent or empty argument does not restrict, `active` restricts only when it is `"1"` |
| `Listing.StableSortDescSorted` | backend/backend.py:65 | the sorted list is non-increasing in `createdAt`, with a missing one read as `""` |
| `Listing.StableSortDescPermutes` | backend/backend.py:65 | sorting is a permutation: same records, same multiplicities |
| `Listing.StableSortDescKeepsTies` | backend/backend.py:65 | the sort is stable: the records sharing a `createdAt` keep their store order |
| `Listing.StableSortIsUnique` | backend/backend.py:65 | any sequence that is sorted and keeps ties in store order is `StableSortDesc`, so every stable sort, Python's included, gives the same list |
| `Listing.InsertInto` | backend/backend.py:65 | one insertion pass of the in-place sort moves `a[i]` to its place in the sorted prefix and leaves the rest of the array alone |
| `Listing.SortInPlace` | backend/backend.py:65 | the in-place sort turns the array into `StableSortDesc` of its old contents |
| `Listing.ListedProperties` | backend/backend.py:49-66 | the list result holds exactly the matching store records with their multiplicities, is sorted by `createdAt` non-increasing, and keeps equal keys in store order |
| `Listing.ListIncidents` | backend/backend.py:49-66 | the handler's result is the specified list: each record is in it iff it is stored and matches the query, and it is sorted |
| `Store.ParseLocation` | backend/backend.py:86-91 | a location is present iff both coordinates are non-empty and both parse, and it is then the parsed pair; otherwise it is absent, with no error |
| `Store.NewIncident` | backend/backend.py:71-104 | the new record has the given id and status "Reported"; its category is the form's when non-empty, else "Other"; its department is present iff the form's is non-empty; title and description are stripped |
| `Store.IncidentStore.Create` | backend/backend.py:68-107 | create appends exactly that one record at the end and leaves every earlier record as it was |
| `Store.ApplyPatch` | backend/backend.py:115-119 | the patch changes `status` only when the key is present and `department` only when the key is present, a falsy value becoming absent; it always sets `updatedAt`; id, createdAt and every other field stay |
| `Store.FirstWithId` | backend/backend.py:113-114 | finds the first record whose id matches, or reports that none does |
| `Store.Updated` | backend/backend.py:113-122 | update keeps the length, replaces the first record with the id by `ApplyPatch` of it, leaves every other record unchanged, and changes nothing for an unknown id |
| `Store.IncidentStore.Update` | backend/backend.py:109-122 | the loop patches the first matching record and returns it, or returns not-found and leaves the collection unchanged |
| `Store.DeleteCount` | backend/backend.py:127-130 | for `WithoutId`, the comprehension that drops the records with the id (line 128), `before - after` is the number of records that carried the id, and what is left is every record with another id |
| `Store.DeleteTwice` | backend/backend.py:128-130 | deleting the same id again removes nothing and changes nothing |
| `Store.IncidentStore.Delete` | backend/backend.py:124-130 | delete keeps, in order, the records whose id differs and returns how many were removed |
| `Analytics.Seed` | backend/backend.py:138-139 | counting starts from the six fixed categories, each at 0 |
| `Analytics.CategoryOf` | backend/backend.py:144 | a counted record is filed under its category, or under "Other" when that is missing or empty |
| `Analytics.StepSum` | backend/backend.py:141-149 | `Step`, one loop iteration (lines 144-147), adds one to the total exactly when the record counts, whether or not its category was already a key |
| `Analytics.TallyCounts` | backend/backend.py:138-149 | for `Tally`, the fold of `Step` over the records from the seed of line 139, and `CountsToward`, which counts a record only when its `createdAt` is present and, with every 'Z' removed, parses to the current month and year (lines 142-143): the counts hold every fixed category; a category is a key iff it is fixed or a counted record carries it; each value is the number of records created in the current month and year under that category |
| `Analytics.TallySum` | backend/backend.py:139-149 | the counts add up to the number of records whose `createdAt` parses to the current month and year |
| `Analytics.Monthly` | backend/backend.py:132-150 | the counting loop returns the current month and year with those counts; an unparsable or missing timestamp is skipped without error |
| `Lifecycle.CreateThenList` | backend/backend.py:92-105 | a created record has status "Reported" and appears in the unfiltered list, the active list and the "Reported" list |
| `Lifecycle.ResolveThenList` | backend/backend.py:115-116 | after its status is set to "Resolved", the patched record leaves the active list and appears in the "Resolved" list |
| `Lifecycle.DeleteThenList` | backend/backend.py:128 | after a delete, no list, whatever its filters, shows a record with that id |
| `Lifecycle.CreateAssignDelete` | backend/backend.py:68-130 | for an id not yet stored: create a flood report with coordinates, assign a department, delete it; the location is the parsed pair, the image is absent, the department is the one sent, one record is deleted, and the list no longer shows the id |

## Left out

- The Flask application, routing, CORS, `jsonify` and the HTTP status codes
  (lines 5-9, 45-47, 152-153). Update's not-found is the `None` result.
- The `/predict` route placed after `home()`'s `return` (lines 14-17). It does
  nothing.
- `_load` and `_save` (lines 27-40): reading the file, turning a read error
  into an empty list, and the temp-file write with `os.replace`. The store is
  the list between load and save, given to the `IncidentStore` constructor.
- Directory creation and path constants (lines 19-25).
- Saving the uploaded image and its random file name (lines 78-85). The
  resulting `imageUrl` is a parameter of create.
- `uuid.uuid4().hex` record ids (line 93). The id is a parameter. Nothing in
  the code keeps ids unique, so the model claims no uniqueness.
- `datetime.utcnow()` and `_now()` (lines 42-43, 135). The readings are
  parameters.
- `float(lat)` and `float(lng)` (line 89). They are an abstract partial
  parser, and float64 values are modelled as reals.
- `datetime.fromisoformat` (line 142). It is an abstract partial parser that
  yields the month and year. A missing `createdAt` is skipped without calling
  it; in the source, `fromisoformat('')` raises, which has the same effect.
- Update request bodies that are not JSON objects. Line 112 turns every falsy
  body into `{}`: an unparsable body, JSON null, `0`, `0.0`, `false`, `""` and
  `[]` all act as a `Patch` with no keys. A truthy number or boolean, or a list
  or string containing `"status"` or `"department"`, raises at line 115, 116
  or 118, and only when a record carries the id (the body is read after the
  match at line 114). The handler then fails before `_save` and changes
  nothing. The model's `Patch` stands for an object body, or a falsy one.
- Record and patch values that are neither strings nor null, and the
  truthiness of such values. The model's fields are optional strings.
- `Listing.SortInPlace`: a `createdAt` that is JSON null makes Python's
  sort raise `TypeError`. The model reads it as `""`, like a missing key.
  Records written by create always carry a string.
- `Analytics.Monthly`: the result is a `map`. The key order of the JSON
  object (the six fixed categories first, then others as they first appear)
  is not modelled.
- The response of update aliases the stored dict. The model returns the
  patched value, which is the same record.
- Concurrency: last-write-wins between requests that load, change and save
  the same file.
