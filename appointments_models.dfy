/**
 * appointments/models.py: the schedule grid of a time frame, the soft-delete
 * table behind every NonDeletableModel, the service duration minimum and the
 * (service, start) uniqueness of appointments.
 *
 * Times of day are whole seconds since midnight; a DurationField is a whole
 * number of seconds.
 */
module AppointmentModels {
  import opened Common

  const SecondsPerDay: int := 86400

  /** Service.duration carries MinValueValidator(timedelta(minutes=15)). */
  const MinDuration: int := 15 * 60

  datatype Service = Service(name: string, price: int, duration: int, timeBetweenAppointments: int, company: nat)

  /**
   * A service as the validators let it be stored, whose schedule advances.
   * The validator bounds the duration; nothing bounds the gap, which may be
   * negative as long as it does not cancel the duration.
   */
  predicate ValidService(s: Service)
  {
    s.duration >= MinDuration && s.duration + s.timeBetweenAppointments > 0
  }

  /** Distance between two consecutive start times of a service's schedule. */
  function Step(s: Service): (step: int)
    requires ValidService(s)
    ensures step > 0
    ensures s.timeBetweenAppointments >= 0 ==> step >= MinDuration
    ensures s.timeBetweenAppointments < 0 ==> step < s.duration
  {
    s.duration + s.timeBetweenAppointments
  }

  /**
   * `(datetime.combine(date(1, 1, 1), t) + d).time()`: the day part is
   * dropped, so the time of day wraps past midnight.
   */
  function AddTime(t: int, d: int): int
  {
    (t + d) % SecondsPerDay
  }

  datatype TimeFrame = TimeFrame(startTime: int, endTime: int, weekday: nat)

  /**
   * A time frame whose schedule never reaches midnight: every cursor below
   * the end plus one step stays inside the day, so AddTime never wraps.
   */
  predicate InsideDay(tf: TimeFrame, step: int)
  {
    0 <= tf.startTime && tf.endTime + step <= SecondsPerDay
  }

  /** The start times c, c + step, c + 2·step, … that lie below `end`. */
  function Grid(c: int, end: int, step: int): seq<int>
    requires step > 0
    decreases end - c
  {
    if c < end then [c] + Grid(c + step, end, step) else []
  }

  /** TimeFrame.get_times: walk a cursor from the start while it is below the end. */
  method GetTimes(tf: TimeFrame, service: Service) returns (times: seq<int>)
    requires ValidService(service) && InsideDay(tf, Step(service))
    ensures times == Grid(tf.startTime, tf.endTime, Step(service))
  {
    var step := Step(service);
    times := [];
    var current := tf.startTime;
    while current < tf.endTime
      invariant 0 <= current
      invariant times + Grid(current, tf.endTime, step) == Grid(tf.startTime, tf.endTime, step)
      decreases tf.endTime - current
    {
      times := times + [current];
      current := AddTime(current, service.duration + service.timeBetweenAppointments);
    }
  }

  /**
   * The shape of the grid: element i is c + i·step, and the number of
   * elements is the ceiling of (end − c) / step.
   */
  lemma {:induction false} GridShape(c: int, end: int, step: int)
    requires step > 0
    ensures c >= end <==> Grid(c, end, step) == []
    ensures forall i :: 0 <= i < |Grid(c, end, step)| ==> Grid(c, end, step)[i] == c + i * step
    ensures c < end ==> (|Grid(c, end, step)| - 1) * step < end - c <= |Grid(c, end, step)| * step
    decreases end - c
  {
    if c < end {
      var g := Grid(c, end, step);
      var h := Grid(c + step, end, step);
      GridShape(c + step, end, step);
      assert g == [c] + h;
      forall i | 0 < i < |g| ensures g[i] == c + i * step {
        assert g[i] == h[i - 1] == c + step + (i - 1) * step;
      }
      if c + step < end {
        assert (|h| - 1) * step + step == |h| * step;
        assert |h| * step + step == (|h| + 1) * step;
      }
    }
  }

  /** get_times is empty exactly when the frame is empty, and starts at the start time. */
  lemma GridStart(c: int, end: int, step: int)
    requires step > 0
    ensures c < end ==> Grid(c, end, step)[0] == c
    ensures c >= end ==> Grid(c, end, step) == []
  {
    GridShape(c, end, step);
  }

  /** Consecutive start times are exactly one step apart and all lie in [c, end). */
  lemma GridSpacing(c: int, end: int, step: int)
    requires step > 0
    ensures forall i :: 0 <= i < |Grid(c, end, step)| ==> c <= Grid(c, end, step)[i] < end
    ensures forall i :: 0 < i < |Grid(c, end, step)| ==> Grid(c, end, step)[i] == Grid(c, end, step)[i - 1] + step
    ensures Increasing(Grid(c, end, step))
  {
    var g := Grid(c, end, step);
    GridShape(c, end, step);
    forall i | 0 <= i < |g| ensures c <= g[i] < end {
      MulMonotone(i, |g| - 1, step);
    }
    forall i | 0 < i < |g| ensures g[i] == g[i - 1] + step {
      assert (i - 1) * step + step == i * step;
    }
    forall i, j | 0 <= i < j < |g| ensures g[i] < g[j] {
      MulStrictMonotone(i, j, step);
    }
  }

  lemma MulMonotone(a: int, b: int, k: int)
    requires 0 <= a <= b && k > 0
    ensures 0 <= a * k <= b * k
  {
  }

  lemma MulStrictMonotone(a: int, b: int, k: int)
    requires a < b && k > 0
    ensures a * k < b * k
  {
    assert b * k - a * k == (b - a) * k;
  }

  /**
   * An independent description of the grid: t is a start time exactly when it
   * lies in [c, end) at a whole number of steps from c.
   */
  lemma GridMembership(c: int, end: int, step: int, t: int)
    requires step > 0
    ensures t in Grid(c, end, step) <==> c <= t < end && (t - c) % step == 0
  {
    if t in Grid(c, end, step) {
      GridElement(c, end, step, t);
    }
    if c <= t < end && (t - c) % step == 0 {
      var i := (t - c) / step;
      assert t - c == i * step;
      assert i >= 0 by {
        if i < 0 { MulStrictMonotone(i, 0, step); }
      }
      GridContains(c, end, step, i);
    }
  }

  lemma GridElement(c: int, end: int, step: int, t: int)
    requires step > 0 && t in Grid(c, end, step)
    ensures c <= t < end && (t - c) % step == 0
  {
    var g := Grid(c, end, step);
    var i :| 0 <= i < |g| && g[i] == t;
    GridShape(c, end, step);
    GridSpacing(c, end, step);
    assert c <= t < end;
    ModOfMultiple(i, step);
    assert t - c == i * step;
  }

  lemma GridContains(c: int, end: int, step: int, i: int)
    requires step > 0 && 0 <= i && c + i * step < end
    ensures c + i * step in Grid(c, end, step)
  {
    var g := Grid(c, end, step);
    GridShape(c, end, step);
    assert i < |g| by {
      if i >= |g| { MulMonotone(|g|, i, step); }
    }
    assert g[i] == c + i * step;
  }

  lemma ModOfMultiple(i: int, step: int)
    requires step > 0
    ensures (i * step) % step == 0
  {
    var q, r := (i * step) / step, (i * step) % step;
    assert (i - q) * step == r;
    if i - q >= 1 {
      MulMonotone(1, i - q, step);
    } else if i - q <= -1 {
      MulMonotone(1, q - i, step);
    }
  }

  /**
   * The cursor of get_times after k steps as the code computes it, with
   * the day part dropped at every step and no bound on the frame.
   */
  function WrappedCursor(start: int, step: int, k: nat): (c: int)
    requires 0 <= start < SecondsPerDay
    ensures 0 <= c < SecondsPerDay
  {
    if k == 0 then start else AddTime(WrappedCursor(start, step, k - 1), step)
  }

  /**
   * A frame from 23:00 to 23:59 with a one-hour step: the cursor goes
   * 23:00, 00:00, 01:00, … and never reaches 23:59, so the loop of
   * get_times (and the same loop in AvailableTimesView.get) never ends.
   */
  lemma {:induction false} MidnightWrapNeverStops(k: nat)
    ensures WrappedCursor(82800, 3600, k) % 3600 == 0
    ensures WrappedCursor(82800, 3600, k) < 86340
  {
    if k > 0 {
      MidnightWrapNeverStops(k - 1);
      var c := WrappedCursor(82800, 3600, k - 1);
      assert c <= 82800;
      if c + 3600 < SecondsPerDay {
        assert WrappedCursor(82800, 3600, k) == c + 3600;
      } else {
        assert WrappedCursor(82800, 3600, k) == 0;
      }
    }
  }

  // ---------------------------------------------------------------------
  // NonDeletableModel and NonDeletableManager
  // ---------------------------------------------------------------------

  /** Database ids are positive. */
  type Id = x: nat | x >= 1 witness 1

  /** One stored record of a NonDeletableModel; `id` is None until it is first saved. */
  datatype Row<T> = Row(id: Option<Id>, active: bool, fields: T)

  /** The position of the stored row with the given id, if there is one. */
  function IndexOfId<T>(rows: seq<Row<T>>, id: Id): (r: Option<nat>)
    ensures r.Some? ==> r.value < |rows| && rows[r.value].id == Some(id)
    ensures r.None? ==> forall k :: 0 <= k < |rows| ==> rows[k].id != Some(id)
  {
    if rows == [] then None
    else if rows[|rows| - 1].id == Some(id) then Some(|rows| - 1)
    else IndexOfId(rows[..|rows| - 1], id)
  }

  /** Only the active rows: what NonDeletableManager.get_queryset yields. */
  function ActiveRows<T(==)>(rows: seq<Row<T>>): seq<Row<T>>
  {
    Filter(rows, (r: Row<T>) => r.active)
  }

  /**
   * The table behind a NonDeletableModel. Rows are never removed: `delete`
   * clears the `active` flag and the default manager hides inactive rows.
   */
  class NonDeletableTable<T(==,!new)> {
    var rows: seq<Row<T>>
    var nextId: Id

    ghost predicate Valid()
      reads this
    {
      && (forall k :: 0 <= k < |rows| ==> rows[k].id.Some? && rows[k].id.value < nextId)
      && (forall i, j :: 0 <= i < j < |rows| ==> rows[i].id != rows[j].id)
    }

    constructor ()
      ensures Valid() && rows == []
    {
      rows := [];
      nextId := 1;
    }

    /** Model.objects.all(): the rows the default manager lets through. */
    function Objects(): (r: seq<Row<T>>)
      reads this
      ensures forall x :: x in r <==> x in rows && x.active
    {
      ActiveRows(rows)
    }

    /**
     * NonDeletableModel.save: a record without an id is forced active and
     * inserted under a fresh id; a record with an id keeps its flag and
     * overwrites the stored row with that id (or is inserted under it).
     */
    method Save(record: Row<T>) returns (saved: Row<T>)
      requires Valid()
      modifies this
      ensures Valid()
      ensures record.id.None? ==> saved == record.(id := Some(old(nextId)), active := true)
      ensures record.id.Some? ==> saved == record
      ensures record.id.Some? && IndexOfId(old(rows), record.id.value).Some? ==>
                rows == old(rows)[IndexOfId(old(rows), record.id.value).value := saved]
      ensures record.id.None? || IndexOfId(old(rows), record.id.value).None? ==> rows == old(rows) + [saved]
      ensures nextId == if record.id.None? then old(nextId) + 1
                        else if IndexOfId(old(rows), record.id.value).None? && record.id.value >= old(nextId)
                        then record.id.value + 1
                        else old(nextId)
    {
      if record.id.None? {
        saved := record.(id := Some(nextId), active := true);
        rows := rows + [saved];
        nextId := nextId + 1;
      } else {
        saved := record;
        var at := IndexOfId(rows, record.id.value);
        if at.Some? {
          rows := rows[at.value := saved];
        } else {
          rows := rows + [saved];
          if record.id.value >= nextId {
            nextId := record.id.value + 1;
          }
        }
      }
    }

    /** NonDeletableModel.delete: clear the flag, then save. */
    method Delete(record: Row<T>) returns (saved: Row<T>)
      requires Valid()
      modifies this
      ensures Valid()
      ensures record.id.Some? ==> saved == record.(active := false)
      ensures record.id.Some? ==> saved in rows && saved !in Objects()
      ensures record.id.Some? && IndexOfId(old(rows), record.id.value).Some? ==>
                rows == old(rows)[IndexOfId(old(rows), record.id.value).value := saved]
      ensures record.id.None? ==> saved == record.(id := Some(old(nextId)), active := true)
      ensures record.id.None? || IndexOfId(old(rows), record.id.value).None? ==> rows == old(rows) + [saved]
      ensures nextId == if record.id.None? then old(nextId) + 1
                        else if IndexOfId(old(rows), record.id.value).None? && record.id.value >= old(nextId)
                        then record.id.value + 1
                        else old(nextId)
    {
      ghost var before := rows;
      saved := Save(record.(active := false));
      if record.id.Some? {
        var at := IndexOfId(before, record.id.value);
        if at.Some? {
          assert rows[at.value] == saved;
        } else {
          assert rows[|rows| - 1] == saved;
        }
      }
    }
  }

  // ---------------------------------------------------------------------
  // Appointment: unique_together = ('service', 'start')
  // ---------------------------------------------------------------------

  datatype Appointment = Appointment(
    service: nat, professional: nat, location: nat, customer: nat,
    start: int, end: int, active: bool)

  /** No two stored appointments share a (service, start) pair. */
  predicate UniqueServiceStart(apps: seq<Appointment>)
  {
    forall i, j :: 0 <= i < j < |apps| ==> !(apps[i].service == apps[j].service && apps[i].start == apps[j].start)
  }

  /**
   * Inserting an appointment: the database refuses a row whose (service,
   * start) pair is already stored, soft-deleted rows included.
   */
  function InsertAppointment(apps: seq<Appointment>, a: Appointment): (r: Result<seq<Appointment>, string>)
    ensures r.Ok? <==> forall k :: 0 <= k < |apps| ==> !(apps[k].service == a.service && apps[k].start == a.start)
    ensures r.Ok? ==> r.value == apps + [a]
    ensures r.Err? ==> r.error == "IntegrityError"
    ensures UniqueServiceStart(apps) && r.Ok? ==> UniqueServiceStart(r.value)
  {
    if exists k :: 0 <= k < |apps| && apps[k].service == a.service && apps[k].start == a.start
    then Err("IntegrityError")
    else Ok(apps + [a])
  }
}
