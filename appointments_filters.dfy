/**
 * appointments/filters.py: AppointmentFilterBackend narrows the appointment
 * list by the query parameters date_gt, date_lt and company, one after the
 * other, each only when it is given and non-empty.
 *
 * Datetimes are whole seconds on one time line; a parameter arrives already
 * converted, None standing for a parameter that is absent or empty.
 * `companyOf` maps a service id to the id of the company offering it.
 */
module AppointmentFilters {
  import opened Common
  import opened AppointmentModels

  datatype Query = Query(dateGt: Option<int>, dateLt: Option<int>, company: Option<nat>)

  /** One `queryset.filter(...)` condition. */
  datatype Criterion = StartAfter(bound: int) | EndBefore(bound: int) | OfCompany(id: nat)

  predicate Meets(c: Criterion, companyOf: nat -> nat, a: Appointment)
  {
    match c
    case StartAfter(bound) => a.start > bound
    case EndBefore(bound) => a.end < bound
    case OfCompany(id) => companyOf(a.service) == id
  }

  /** `qs.filter(...)`: the appointments meeting `c`, in their original order. */
  function Narrow(qs: seq<Appointment>, c: Criterion, companyOf: nat -> nat): (r: seq<Appointment>)
    ensures |r| <= |qs|
    ensures forall a :: a in r <==> a in qs && Meets(c, companyOf, a)
  {
    if qs == [] then []
    else if Meets(c, companyOf, qs[0]) then [qs[0]] + Narrow(qs[1..], c, companyOf)
    else Narrow(qs[1..], c, companyOf)
  }

  /** A parameter that is given narrows the list; one that is not leaves it as it is. */
  function NarrowIf(qs: seq<Appointment>, given: bool, c: Criterion, companyOf: nat -> nat): seq<Appointment>
  {
    if given then Narrow(qs, c, companyOf) else qs
  }

  /** AppointmentFilterBackend.filter_queryset. */
  function FilterQueryset(qs: seq<Appointment>, q: Query, companyOf: nat -> nat): (r: seq<Appointment>)
    ensures forall a :: a in r <==> a in qs && Selected(q, companyOf, a)
  {
    var afterGt := NarrowIf(qs, q.dateGt.Some?, StartAfter(q.dateGt.UnwrapOr(0)), companyOf);
    var afterLt := NarrowIf(afterGt, q.dateLt.Some?, EndBefore(q.dateLt.UnwrapOr(0)), companyOf);
    NarrowIf(afterLt, q.company.Some?, OfCompany(q.company.UnwrapOr(0)), companyOf)
  }

  /** What the query asks of an appointment: every given parameter's condition. */
  predicate Selected(q: Query, companyOf: nat -> nat, a: Appointment)
  {
    && (q.dateGt.Some? ==> a.start > q.dateGt.value)
    && (q.dateLt.Some? ==> a.end < q.dateLt.value)
    && (q.company.Some? ==> companyOf(a.service) == q.company.value)
  }

  /** A single pass over the list keeping the selected appointments. */
  function SelectAll(qs: seq<Appointment>, q: Query, companyOf: nat -> nat): (r: seq<Appointment>)
  {
    if qs == [] then []
    else if Selected(q, companyOf, qs[0]) then [qs[0]] + SelectAll(qs[1..], q, companyOf)
    else SelectAll(qs[1..], q, companyOf)
  }

  lemma NarrowCons(a: Appointment, rest: seq<Appointment>, given: bool, c: Criterion, companyOf: nat -> nat)
    ensures NarrowIf([a] + rest, given, c, companyOf) ==
            if !given || Meets(c, companyOf, a) then [a] + NarrowIf(rest, given, c, companyOf)
            else NarrowIf(rest, given, c, companyOf)
  {
    assert ([a] + rest)[0] == a && ([a] + rest)[1..] == rest;
  }

  /**
   * Narrowing three times in a row is one pass keeping the appointments that
   * meet every given condition: same elements, same order, same repetitions.
   */
  lemma {:induction false} FilterQuerysetIsOnePass(qs: seq<Appointment>, q: Query, companyOf: nat -> nat)
    ensures FilterQueryset(qs, q, companyOf) == SelectAll(qs, q, companyOf)
    decreases |qs|
  {
    if qs != [] {
      var a, rest := qs[0], qs[1..];
      assert qs == [a] + rest;
      FilterQuerysetIsOnePass(rest, q, companyOf);
      var c1, c2, c3 := StartAfter(q.dateGt.UnwrapOr(0)), EndBefore(q.dateLt.UnwrapOr(0)), OfCompany(q.company.UnwrapOr(0));
      var s1 := NarrowIf(rest, q.dateGt.Some?, c1, companyOf);
      var s2 := NarrowIf(s1, q.dateLt.Some?, c2, companyOf);
      NarrowCons(a, rest, q.dateGt.Some?, c1, companyOf);
      if !q.dateGt.Some? || Meets(c1, companyOf, a) {
        NarrowCons(a, s1, q.dateLt.Some?, c2, companyOf);
        if !q.dateLt.Some? || Meets(c2, companyOf, a) {
          NarrowCons(a, s2, q.company.Some?, c3, companyOf);
        }
      }
    }
  }

  lemma {:induction false} SelectAllSpec(qs: seq<Appointment>, q: Query, companyOf: nat -> nat)
    ensures forall a :: a in SelectAll(qs, q, companyOf) <==> a in qs && Selected(q, companyOf, a)
    ensures IsSubsequence(SelectAll(qs, q, companyOf), qs)
    decreases |qs|
  {
    if qs != [] {
      SelectAllSpec(qs[1..], q, companyOf);
      assert qs == [qs[0]] + qs[1..];
      if !Selected(q, companyOf, qs[0]) {
        SubsequenceOfTail(SelectAll(qs[1..], q, companyOf), qs);
      }
    }
  }

  /**
   * The filtered list keeps exactly the appointments meeting every given
   * parameter, in their original order; with no parameter it is the input.
   */
  lemma FilterQuerysetSelects(qs: seq<Appointment>, q: Query, companyOf: nat -> nat)
    ensures forall a :: a in FilterQueryset(qs, q, companyOf) <==> a in qs && Selected(q, companyOf, a)
    ensures IsSubsequence(FilterQueryset(qs, q, companyOf), qs)
    ensures q == Query(None, None, None) ==> FilterQueryset(qs, q, companyOf) == qs
  {
    FilterQuerysetIsOnePass(qs, q, companyOf);
    SelectAllSpec(qs, q, companyOf);
  }
}
