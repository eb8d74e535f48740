/**
 * appointments/views.py, StatsView.get: the date × name pivot tables, the
 * per-service counts, the revenue defaults and the count of new and total
 * customers. The ORM aggregates arrive as sequences: one Item per
 * (date, name) group with its count or revenue, dates as day numbers.
 */
module StatsView {
  import opened Common

  /** A cell of a statistics table. */
  datatype Cell = Text(s: string) | Day(d: int) | Num(n: int)

  /** One row of an annotated aggregate: a date, a service or professional name, a value. */
  datatype Item = Item(date: int, name: string, value: int)

  const CountDefault: int := 0
  const RevenueDefault: int := 1_000_000

  predicate Matches(item: Item, date: int, name: string)
  {
    item.date == date && item.name == name
  }

  /** The position of the first item of the (date, name) group, if there is one. */
  function FirstMatch(items: seq<Item>, date: int, name: string): (r: Option<nat>)
    ensures r.Some? ==> r.value < |items| && Matches(items[r.value], date, name)
                        && forall j :: 0 <= j < r.value ==> !Matches(items[j], date, name)
    ensures r.None? ==> forall k :: 0 <= k < |items| ==> !Matches(items[k], date, name)
  {
    if items == [] then None
    else if Matches(items[0], date, name) then Some(0)
    else match FirstMatch(items[1..], date, name)
      case None => None
      case Some(k) => Some(k + 1)
  }

  /**
   * `next((item[...] for item in items if ...), default)`: the value of the
   * first matching item, or the default when none matches.
   */
  function Lookup(items: seq<Item>, date: int, name: string, default: int): int
  {
    match FirstMatch(items, date, name)
    case None => default
    case Some(k) => items[k].value
  }

  function Header(first: string, names: seq<string>): (r: seq<Cell>)
    ensures |r| == |names| + 1 && r[0] == Text(first)
    ensures forall j :: 0 <= j < |names| ==> r[j + 1] == Text(names[j])
  {
    [Text(first)] + seq(|names|, j requires 0 <= j < |names| => Text(names[j]))
  }

  /** The row the view builds for one date: the date, then one looked-up value per name. */
  function PivotRow(date: int, names: seq<string>, items: seq<Item>, default: int): (r: seq<Cell>)
    ensures |r| == |names| + 1 && r[0] == Day(date)
    ensures forall j :: 0 <= j < |names| ==> r[j + 1] == Num(Lookup(items, date, names[j], default))
  {
    [Day(date)] + seq(|names|, j requires 0 <= j < |names| => Num(Lookup(items, date, names[j], default)))
  }

  /**
   * One pivot table: the header ["Date"] + names, then one row per date in
   * the order of `dates`, built by appending cells and rows.
   */
  method PivotTable(dates: seq<int>, names: seq<string>, items: seq<Item>, default: int)
    returns (table: seq<seq<Cell>>)
    ensures |table| == |dates| + 1
    ensures table[0] == Header("Date", names)
    ensures forall i :: 0 <= i < |dates| ==> table[i + 1] == PivotRow(dates[i], names, items, default)
  {
    table := [Header("Date", names)];
    var i := 0;
    while i < |dates|
      invariant 0 <= i <= |dates|
      invariant |table| == i + 1 && table[0] == Header("Date", names)
      invariant forall m :: 0 <= m < i ==> table[m + 1] == PivotRow(dates[m], names, items, default)
    {
      var row := BuildRow(dates[i], names, items, default);
      table := table + [row];
      i := i + 1;
    }
  }

  /** The inner loop: the date, then one looked-up value per name, appended cell by cell. */
  method BuildRow(date: int, names: seq<string>, items: seq<Item>, default: int) returns (row: seq<Cell>)
    ensures row == PivotRow(date, names, items, default)
  {
    row := [Day(date)];
    var j := 0;
    while j < |names|
      invariant 0 <= j <= |names|
      invariant |row| == j + 1 && row[0] == Day(date)
      invariant forall m :: 0 <= m < j ==> row[m + 1] == Num(Lookup(items, date, names[m], default))
    {
      row := row + [Num(Lookup(items, date, names[j], default))];
      j := j + 1;
    }
    ghost var expected := PivotRow(date, names, items, default);
    assert forall m :: 0 <= m < |row| ==> row[m] == expected[m];
  }

  /** The three pivot tables of the statistics answer. */
  datatype PivotTables = PivotTables(
    appointmentsPerServicePerDate: seq<seq<Cell>>,
    revenuePerServicePerDate: seq<seq<Cell>>,
    appointmentsPerProfessionalPerDate: seq<seq<Cell>>)

  /** A cell of a pivot table whose group is missing from the aggregate holds the table's default. */
  lemma MissingGroupGetsDefault(dates: seq<int>, names: seq<string>, items: seq<Item>, default: int, i: int, j: int)
    requires 0 <= i < |dates| && 0 <= j < |names|
    requires forall k :: 0 <= k < |items| ==> !Matches(items[k], dates[i], names[j])
    ensures PivotRow(dates[i], names, items, default)[j + 1] == Num(default)
  {
  }

  method DailyTables(dates: seq<int>, services: seq<string>, professionals: seq<string>,
                     countsPerService: seq<Item>, revenuePerService: seq<Item>,
                     countsPerProfessional: seq<Item>)
    returns (t: PivotTables)
    ensures |t.appointmentsPerServicePerDate| == |t.revenuePerServicePerDate| == |dates| + 1
    ensures |t.appointmentsPerProfessionalPerDate| == |dates| + 1
    ensures t.appointmentsPerServicePerDate[0] == t.revenuePerServicePerDate[0] == Header("Date", services)
    ensures t.appointmentsPerProfessionalPerDate[0] == Header("Date", professionals)
    ensures forall i :: 0 <= i < |dates| ==>
              && t.appointmentsPerServicePerDate[i + 1] == PivotRow(dates[i], services, countsPerService, CountDefault)
              && t.revenuePerServicePerDate[i + 1] == PivotRow(dates[i], services, revenuePerService, RevenueDefault)
              && t.appointmentsPerProfessionalPerDate[i + 1]
                 == PivotRow(dates[i], professionals, countsPerProfessional, CountDefault)
  {
    var a := PivotTable(dates, services, countsPerService, CountDefault);
    var b := PivotTable(dates, services, revenuePerService, RevenueDefault);
    var c := PivotTable(dates, professionals, countsPerProfessional, CountDefault);
    t := PivotTables(a, b, c);
  }

  /**
   * The "appointments per service" table: a ["Service", "Count"] header and
   * one row per service with the number of appointments of that service.
   */
  method AppointmentsPerService(services: seq<string>, appointmentServices: seq<string>)
    returns (table: seq<seq<Cell>>)
    ensures |table| == |services| + 1
    ensures table[0] == [Text("Service"), Text("Count")]
    ensures forall i :: 0 <= i < |services| ==>
              table[i + 1] == [Text(services[i]), Num(multiset(appointmentServices)[services[i]])]
  {
    table := [[Text("Service"), Text("Count")]];
    var i := 0;
    while i < |services|
      invariant 0 <= i <= |services|
      invariant |table| == i + 1 && table[0] == [Text("Service"), Text("Count")]
      invariant forall m :: 0 <= m < i ==>
                  table[m + 1] == [Text(services[m]), Num(multiset(appointmentServices)[services[m]])]
    {
      var count := multiset(appointmentServices)[services[i]];
      table := table + [[Text(services[i]), Num(count)]];
      i := i + 1;
    }
  }

  function Sum(s: seq<int>): int
  {
    if s == [] then 0 else Sum(s[..|s| - 1]) + s[|s| - 1]
  }

  /**
   * `aggregate(Sum(...))['...'] or default`: the sum of the prices, except
   * that an empty set of rows (SQL NULL) and a sum of 0 both fall back to
   * the default.
   */
  function RevenueOr(prices: seq<int>, default: int): (r: int)
    ensures prices == [] ==> r == default
    ensures Sum(prices) == 0 ==> r == default
    ensures Sum(prices) != 0 ==> r == Sum(prices)
  {
    if prices == [] || Sum(prices) == 0 then default else Sum(prices)
  }

  /**
   * The customer count: customers of earlier appointments are collected
   * without repetition, then customers of this month's appointments that are
   * in neither list. Equality is the customer's identity.
   */
  method CountCustomers<C(==)>(before: seq<C>, thisMonth: seq<C>)
    returns (oldCustomers: seq<C>, newCustomers: seq<C>, total: nat)
    ensures NoDups(oldCustomers) && Elements(oldCustomers) == Elements(before)
    ensures NoDups(newCustomers) && Elements(newCustomers) == Elements(thisMonth) - Elements(before)
    ensures total == |oldCustomers| + |newCustomers|
    ensures total == |Elements(before) + Elements(thisMonth)|
  {
    oldCustomers := CollectOld(before);
    newCustomers := CollectNew(thisMonth, oldCustomers);
    var customers := oldCustomers + newCustomers;
    total := |customers|;
    DistinctTotal(oldCustomers, newCustomers, before, thisMonth);
  }

  /** The first loop: each earlier customer once, in order of first appearance. */
  method CollectOld<C(==)>(before: seq<C>) returns (oldCustomers: seq<C>)
    ensures NoDups(oldCustomers) && Elements(oldCustomers) == Elements(before)
  {
    oldCustomers := [];
    var i := 0;
    while i < |before|
      invariant 0 <= i <= |before|
      invariant NoDups(oldCustomers) && Elements(oldCustomers) == Elements(before[..i])
    {
      AppendIfAbsent(oldCustomers, before[i]);
      if before[i] !in oldCustomers {
        oldCustomers := oldCustomers + [before[i]];
      }
      PrefixElements(before, i);
      i := i + 1;
    }
    assert before[..i] == before;
  }

  /** The second loop: each customer of this month once, unless already an old customer. */
  method CollectNew<C(==)>(thisMonth: seq<C>, oldCustomers: seq<C>) returns (newCustomers: seq<C>)
    ensures NoDups(newCustomers) && Elements(newCustomers) == Elements(thisMonth) - Elements(oldCustomers)
  {
    newCustomers := [];
    var j := 0;
    while j < |thisMonth|
      invariant 0 <= j <= |thisMonth|
      invariant NoDups(newCustomers)
      invariant Elements(newCustomers) == Elements(thisMonth[..j]) - Elements(oldCustomers)
    {
      AppendIfAbsent(newCustomers, thisMonth[j]);
      if thisMonth[j] !in oldCustomers && thisMonth[j] !in newCustomers {
        newCustomers := newCustomers + [thisMonth[j]];
      }
      PrefixElements(thisMonth, j);
      j := j + 1;
    }
    assert thisMonth[..j] == thisMonth;
  }

  /** Appending an element only when it is absent keeps a list free of repetitions. */
  lemma AppendIfAbsent<T>(s: seq<T>, x: T)
    requires NoDups(s)
    ensures x !in s ==> NoDups(s + [x])
    ensures Elements(s + [x]) == Elements(s) + {x}
  {
    ElementsAppend(s, x);
  }

  lemma PrefixElements<T>(s: seq<T>, i: int)
    requires 0 <= i < |s|
    ensures Elements(s[..i + 1]) == Elements(s[..i]) + {s[i]}
  {
    assert s[..i + 1] == s[..i] + [s[i]];
    ElementsAppend(s[..i], s[i]);
  }

  /** Two disjoint lists without repetitions count the customers of both periods once each. */
  lemma DistinctTotal<T>(oldCustomers: seq<T>, newCustomers: seq<T>, before: seq<T>, thisMonth: seq<T>)
    requires NoDups(oldCustomers) && Elements(oldCustomers) == Elements(before)
    requires NoDups(newCustomers) && Elements(newCustomers) == Elements(thisMonth) - Elements(before)
    ensures |oldCustomers| + |newCustomers| == |Elements(before) + Elements(thisMonth)|
  {
    NoDupsCardinality(oldCustomers);
    NoDupsCardinality(newCustomers);
    assert Elements(before) + Elements(thisMonth) == Elements(oldCustomers) + Elements(newCustomers);
    assert Elements(oldCustomers) !! Elements(newCustomers);
  }
}
