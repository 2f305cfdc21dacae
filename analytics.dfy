/**
 * The monthly analytics of backend/backend.py (`monthly`): per category,
 * how many stored incidents were created in the current month and year.
 * The clock reading and the ISO-8601 parser are parameters.
 */
module Analytics {
  import opened Wrappers
  import opened Incidents

  /** The month and year of a parsed timestamp, or of the current time. */
  datatype MonthYear = MonthYear(month: int, year: int)

  /** The `{month, year, counts}` response. */
  datatype MonthlyReport = MonthlyReport(month: int, year: int, counts: map<string, nat>)

  const FixedCategories: seq<string> := ["Fire", "Flood", "Accident", "Electricity", "Medical", "Other"]

  /** The counts every report starts from: each fixed category at zero. */
  function Seed(): (m: map<string, nat>)
    ensures forall c :: c in m <==> c in FixedCategories
    ensures forall c :: c in m ==> m[c] == 0
  {
    map c | c in FixedCategories :: 0
  }

  const NotZ: char -> bool := (ch: char) => ch != 'Z'

  /** The category a counted record is filed under: a missing or empty one is "Other". */
  function CategoryOf(r: Incident): (c: string)
    ensures c != ""
    ensures Truthy(r.category) ==> c == r.category.value
    ensures !Truthy(r.category) ==> c == "Other"
  {
    if Truthy(r.category) then r.category.value else "Other"
  }

  /**
   * Whether a record counts toward `now`: its `createdAt`, with every 'Z'
   * removed, parses, and the parsed month and year are the current ones. A
   * missing or unparsable timestamp does not count and raises nothing.
   */
  predicate CountsToward(r: Incident, now: MonthYear, parse: string -> Option<MonthYear>) {
    match r.createdAt
    case None => false
    case Some(t) =>
      match parse(Keep(t, NotZ))
      case None => false
      case Some(d) => d.month == now.month && d.year == now.year
  }

  function CountedAs(c: string, now: MonthYear, parse: string -> Option<MonthYear>): Incident -> bool {
    (r: Incident) => CountsToward(r, now, parse) && CategoryOf(r) == c
  }

  function Counted(now: MonthYear, parse: string -> Option<MonthYear>): Incident -> bool {
    (r: Incident) => CountsToward(r, now, parse)
  }

  /** One iteration of the counting loop: insert the category at 0 if new, then add one. */
  function Step(counts: map<string, nat>, r: Incident, now: MonthYear, parse: string -> Option<MonthYear>): map<string, nat> {
    if CountsToward(r, now, parse) then
      var c := CategoryOf(r);
      var base := if c in counts then counts else counts[c := 0];
      base[c := base[c] + 1]
    else counts
  }

  /** The counts after the loop has visited the records of `s` in order. */
  function Tally(s: seq<Incident>, now: MonthYear, parse: string -> Option<MonthYear>): map<string, nat>
    decreases |s|
  {
    if s == [] then Seed() else Step(Tally(s[..|s| - 1], now, parse), s[|s| - 1], now, parse)
  }

  /** The sum of the values of a map. */
  ghost function SumValues(m: map<string, nat>): nat
    decreases |m|
  {
    if m == map[] then 0
    else
      var k :| k in m;
      m[k] + SumValues(m - {k})
  }

  lemma {:induction false} SumValuesRemove(m: map<string, nat>, k: string)
    requires k in m
    ensures SumValues(m) == m[k] + SumValues(m - {k})
    decreases |m|
  {
    var j :| j in m && SumValues(m) == m[j] + SumValues(m - {j});
    if j != k {
      SumValuesRemove(m - {j}, k);
      SumValuesRemove(m - {k}, j);
      assert (m - {j}) - {k} == (m - {k}) - {j};
    }
  }

  lemma {:induction false} SumValuesZero(m: map<string, nat>)
    requires forall k :: k in m ==> m[k] == 0
    ensures SumValues(m) == 0
    decreases |m|
  {
    if m != map[] {
      var j :| j in m && SumValues(m) == m[j] + SumValues(m - {j});
      SumValuesZero(m - {j});
    }
  }

  /** Counting one more record adds one to the total, whether its category was present or not. */
  lemma StepSum(counts: map<string, nat>, r: Incident, now: MonthYear, parse: string -> Option<MonthYear>)
    ensures SumValues(Step(counts, r, now, parse)) == SumValues(counts) + (if CountsToward(r, now, parse) then 1 else 0)
  {
    if CountsToward(r, now, parse) {
      var c := CategoryOf(r);
      var next := Step(counts, r, now, parse);
      SumValuesRemove(next, c);
      if c in counts {
        SumValuesRemove(counts, c);
        assert next - {c} == counts - {c};
      } else {
        assert next - {c} == counts;
      }
    }
  }

  /**
   * The counts hold every fixed category; a category is present exactly
   * when it is fixed or some counted record carries it; and each value is
   * the number of counted records filed under that category.
   */
  lemma {:induction false} TallyCounts(s: seq<Incident>, now: MonthYear, parse: string -> Option<MonthYear>)
    ensures forall c :: c in FixedCategories ==> c in Tally(s, now, parse)
    ensures forall c :: c in Tally(s, now, parse) <==> c in FixedCategories || |Keep(s, CountedAs(c, now, parse))| > 0
    ensures forall c :: c in Tally(s, now, parse) ==> Tally(s, now, parse)[c] == |Keep(s, CountedAs(c, now, parse))|
    decreases |s|
  {
    if s != [] {
      var init, r := s[..|s| - 1], s[|s| - 1];
      TallyCounts(init, now, parse);
      assert s == init + [r];
      var prev, next := Tally(init, now, parse), Tally(s, now, parse);
      assert next == Step(prev, r, now, parse);
      forall c
        ensures c in FixedCategories ==> c in next
        ensures c in next <==> c in FixedCategories || |Keep(s, CountedAs(c, now, parse))| > 0
        ensures c in next ==> next[c] == |Keep(s, CountedAs(c, now, parse))|
      {
        KeepAppend(init, [r], CountedAs(c, now, parse));
        assert |Keep(s, CountedAs(c, now, parse))|
            == |Keep(init, CountedAs(c, now, parse))| + (if CountsToward(r, now, parse) && CategoryOf(r) == c then 1 else 0);
      }
    }
  }

  /** The values add up to the number of records created in the current month and year. */
  lemma {:induction false} TallySum(s: seq<Incident>, now: MonthYear, parse: string -> Option<MonthYear>)
    ensures SumValues(Tally(s, now, parse)) == |Keep(s, Counted(now, parse))|
    decreases |s|
  {
    if s == [] {
      SumValuesZero(Seed());
    } else {
      var init, r := s[..|s| - 1], s[|s| - 1];
      TallySum(init, now, parse);
      StepSum(Tally(init, now, parse), r, now, parse);
      assert s == init + [r];
      KeepAppend(init, [r], Counted(now, parse));
    }
  }

  /** `monthly`: the counting loop over the stored records. */
  method Monthly(reports: seq<Incident>, now: MonthYear, parse: string -> Option<MonthYear>)
    returns (report: MonthlyReport)
    ensures report == MonthlyReport(now.month, now.year, Tally(reports, now, parse))
    ensures forall c :: c in FixedCategories ==> c in report.counts
    ensures forall c :: c in report.counts ==> report.counts[c] == |Keep(reports, CountedAs(c, now, parse))|
    ensures SumValues(report.counts) == |Keep(reports, Counted(now, parse))|
  {
    var counts: map<string, nat> := map c | c in FixedCategories :: 0;
    var i := 0;
    while i < |reports|
      invariant 0 <= i <= |reports|
      invariant counts == Tally(reports[..i], now, parse)
    {
      var r := reports[i];
      if CountsToward(r, now, parse) {
        var c := CategoryOf(r);
        if c !in counts {
          counts := counts[c := 0];
        }
        counts := counts[c := counts[c] + 1];
      }
      assert reports[..i + 1][..i] == reports[..i];
      i := i + 1;
    }
    assert reports[..i] == reports;
    report := MonthlyReport(now.month, now.year, counts);
    TallyCounts(reports, now, parse);
    TallySum(reports, now, parse);
  }
}
