/**
 * appointments/views.py, AvailableTimesView.get: the start times a
 * professional can still be booked at for a service on a date.
 *
 * The weekday's time frames and the professional's busy intervals on that
 * date arrive already loaded, as local seconds since midnight; the current
 * date arrives as a parameter.
 */
module AvailableTimesView {
  import opened Common
  import opened AppointmentModels

  /** The (start, end) times of one existing appointment of the professional. */
  datatype Interval = Interval(start: int, end: int)

  /** Some busy interval holds t: start <= t < end. Only t itself is tested. */
  predicate Busy(busy: seq<Interval>, t: int)
  {
    exists k :: 0 <= k < |busy| && busy[k].start <= t < busy[k].end
  }

  /** The times of `times` that no busy interval holds, in order. */
  function Free(busy: seq<Interval>, times: seq<int>): seq<int>
  {
    if times == [] then []
    else (if Busy(busy, times[0]) then [] else [times[0]]) + Free(busy, times[1..])
  }

  /** A time is kept exactly when it is in the input and free. */
  lemma {:induction false} FreeMembership(busy: seq<Interval>, times: seq<int>, t: int)
    ensures t in Free(busy, times) <==> t in times && !Busy(busy, t)
    decreases |times|
  {
    if times != [] {
      FreeMembership(busy, times[1..], t);
      assert times == [times[0]] + times[1..];
    }
  }

  /** Removing times from an increasing list leaves it increasing. */
  lemma {:induction false} FreeIncreasing(busy: seq<Interval>, times: seq<int>)
    requires Increasing(times)
    ensures Increasing(Free(busy, times))
    decreases |times|
  {
    if times != [] {
      var tail := times[1..];
      FreeIncreasing(busy, tail);
      var r := Free(busy, tail);
      forall x | x in r ensures times[0] < x {
        FreeMembership(busy, tail, x);
        var k :| 0 <= k < |tail| && tail[k] == x;
        assert times[k + 1] == x;
      }
      var f := Free(busy, times);
      forall i, j | 0 <= i < j < |f| ensures f[i] < f[j] {
        if !Busy(busy, times[0]) {
          assert f == [times[0]] + r;
          if i == 0 {
            assert f[j] == r[j - 1] && r[j - 1] in r;
          } else {
            assert f[i] == r[i - 1] && f[j] == r[j - 1];
          }
        }
      }
    }
  }

  /** The get_times grid of one time frame with its busy start times removed. */
  function WindowSlots(tf: TimeFrame, busy: seq<Interval>, step: int): seq<int>
    requires step > 0
  {
    Free(busy, Grid(tf.startTime, tf.endTime, step))
  }

  /** One cursor position: it is kept when free, and the walk goes on one step later. */
  lemma FreeGridUnfold(busy: seq<Interval>, c: int, end: int, step: int)
    requires step > 0 && c < end
    ensures Free(busy, Grid(c, end, step))
            == (if Busy(busy, c) then [] else [c]) + Free(busy, Grid(c + step, end, step))
  {
    var g := Grid(c, end, step);
    assert g == [c] + Grid(c + step, end, step);
    assert g[1..] == Grid(c + step, end, step);
  }

  /** The slots of every time frame, concatenated in the order of the frames. */
  function AllSlots(tfs: seq<TimeFrame>, busy: seq<Interval>, step: int): seq<int>
    requires step > 0
  {
    if tfs == [] then []
    else AllSlots(tfs[..|tfs| - 1], busy, step) + WindowSlots(tfs[|tfs| - 1], busy, step)
  }

  /** What the view offers: nothing for today or earlier, otherwise every frame's slots. */
  function Available(date: int, today: int, tfs: seq<TimeFrame>, busy: seq<Interval>, service: Service): seq<int>
    requires date > today ==> ValidService(service)
  {
    if date <= today then [] else AllSlots(tfs, busy, Step(service))
  }

  /** One element of the JSON answer; both fields hold the same time. */
  datatype TimeChoice = TimeChoice(id: int, name: int)

  function Choices(times: seq<int>): (r: seq<TimeChoice>)
    ensures |r| == |times|
    ensures forall i :: 0 <= i < |r| ==> r[i].id == times[i] && r[i].name == times[i]
  {
    seq(|times|, i requires 0 <= i < |times| => TimeChoice(times[i], times[i]))
  }

  /**
   * The walk over one time frame: at every cursor the busy intervals are
   * scanned, and whether one holds the cursor or not, the cursor advances by
   * duration + time between appointments.
   */
  method FrameTimes(tf: TimeFrame, busy: seq<Interval>, service: Service) returns (times: seq<int>)
    requires ValidService(service) && InsideDay(tf, Step(service))
    ensures times == WindowSlots(tf, busy, Step(service))
  {
    ghost var step := Step(service);
    times := [];
    var current := tf.startTime;
    while current < tf.endTime
      invariant 0 <= current
      invariant times + Free(busy, Grid(current, tf.endTime, step)) == WindowSlots(tf, busy, step)
      decreases tf.endTime - current
    {
      ghost var cursor, acc := current, times;
      AddTimeInsideDay(cursor, step);
      var validTime := true;
      var k := 0;
      while k < |busy|
        invariant 0 <= k <= |busy|
        invariant validTime && current == cursor
        invariant forall m :: 0 <= m < k ==> !(busy[m].start <= cursor < busy[m].end)
      {
        if busy[k].start <= current < busy[k].end {
          assert Busy(busy, cursor);
          validTime := false;
          current := AddTime(current, service.duration + service.timeBetweenAppointments);
          break;
        }
        k := k + 1;
      }
      if validTime {
        times := times + [current];
        current := AddTime(current, service.duration + service.timeBetweenAppointments);
      }
      assert validTime <==> !Busy(busy, cursor);
      assert current == cursor + step;
      WalkStep(busy, acc, cursor, tf.endTime, step, validTime);
    }
  }

  /** Inside the day, adding to a time of day does not wrap. */
  lemma AddTimeInsideDay(t: int, d: int)
    requires 0 <= t + d < SecondsPerDay
    ensures AddTime(t, d) == t + d
  {
  }

  /**
   * One iteration of the walk: the cursor joins the output exactly when it
   * is free, and the rest of the walk starts one step later.
   */
  lemma WalkStep(busy: seq<Interval>, acc: seq<int>, cursor: int, end: int, step: int, free: bool)
    requires step > 0 && cursor < end
    requires free <==> !Busy(busy, cursor)
    ensures (if free then acc + [cursor] else acc) + Free(busy, Grid(cursor + step, end, step))
            == acc + Free(busy, Grid(cursor, end, step))
  {
    FreeGridUnfold(busy, cursor, end, step);
  }

  /**
   * The view: nothing for today or earlier; otherwise the walks over the
   * weekday's frames, concatenated in frame order, as {id, name} pairs.
   */
  method Get(date: int, today: int, timeframes: seq<TimeFrame>, busy: seq<Interval>, service: Service)
    returns (output: seq<TimeChoice>)
    requires date > today ==> ValidService(service)
    requires date > today ==> forall k :: 0 <= k < |timeframes| ==> InsideDay(timeframes[k], Step(service))
    ensures output == Choices(Available(date, today, timeframes, busy, service))
    ensures date <= today ==> output == []
  {
    var availableTimes: seq<int> := [];
    if date <= today {
      return [];
    }
    var w := 0;
    while w < |timeframes|
      invariant 0 <= w <= |timeframes|
      invariant availableTimes == AllSlots(timeframes[..w], busy, Step(service))
    {
      var times := FrameTimes(timeframes[w], busy, service);
      availableTimes := availableTimes + times;
      assert timeframes[..w + 1][..w] == timeframes[..w];
      w := w + 1;
    }
    assert timeframes[..w] == timeframes;
    output := Choices(availableTimes);
  }

  /** Both directions of an iff: t is offered by a frame exactly when it is on the frame's grid and not busy. */
  lemma WindowSlotsMembership(tf: TimeFrame, busy: seq<Interval>, step: int, t: int)
    requires step > 0
    ensures t in WindowSlots(tf, busy, step) <==>
              && tf.startTime <= t < tf.endTime
              && (t - tf.startTime) % step == 0
              && !Busy(busy, t)
  {
    GridMembership(tf.startTime, tf.endTime, step, t);
    FreeMembership(busy, Grid(tf.startTime, tf.endTime, step), t);
  }

  /** Within one frame the offered times are strictly increasing. */
  lemma WindowSlotsIncreasing(tf: TimeFrame, busy: seq<Interval>, step: int)
    requires step > 0
    ensures Increasing(WindowSlots(tf, busy, step))
  {
    GridSpacing(tf.startTime, tf.endTime, step);
    FreeIncreasing(busy, Grid(tf.startTime, tf.endTime, step));
  }

  /** Frames are handled independently and their results are concatenated, not merged. */
  lemma {:induction false} AllSlotsAppend(a: seq<TimeFrame>, b: seq<TimeFrame>, busy: seq<Interval>, step: int)
    requires step > 0
    ensures AllSlots(a + b, busy, step) == AllSlots(a, busy, step) + AllSlots(b, busy, step)
    decreases |b|
  {
    if b != [] {
      var b' := b[..|b| - 1];
      assert (a + b)[..|a + b| - 1] == a + b';
      AllSlotsAppend(a, b', busy, step);
    } else {
      assert a + b == a;
    }
  }

  /** Every offered time comes from some frame: it is a non-busy grid point of that frame. */
  lemma {:induction false} AllSlotsMembership(tfs: seq<TimeFrame>, busy: seq<Interval>, step: int, t: int)
    requires step > 0
    ensures t in AllSlots(tfs, busy, step) <==>
              exists k :: 0 <= k < |tfs| && t in WindowSlots(tfs[k], busy, step)
    decreases |tfs|
  {
    if tfs != [] {
      var init, last := tfs[..|tfs| - 1], tfs[|tfs| - 1];
      AllSlotsMembership(init, busy, step, t);
      assert AllSlots(tfs, busy, step) == AllSlots(init, busy, step) + WindowSlots(last, busy, step);
      if t in AllSlots(tfs, busy, step) {
        if t in AllSlots(init, busy, step) {
          var k :| 0 <= k < |init| && t in WindowSlots(init[k], busy, step);
          assert tfs[k] == init[k];
        } else {
          assert t in WindowSlots(tfs[|tfs| - 1], busy, step);
        }
      } else {
        forall k | 0 <= k < |tfs| ensures t !in WindowSlots(tfs[k], busy, step) {
          if k < |init| {
            assert tfs[k] == init[k];
          }
        }
      }
    }
  }

  /**
   * Only the start of a slot is compared with the end of the frame: with a
   * 30-minute service, 10:00 is offered in a frame that ends at 10:15.
   */
  lemma SlotMayRunPastFrameEnd()
    ensures 36000 in WindowSlots(TimeFrame(34200, 36900, 0), [], 1800)
    ensures 36000 + 1800 > 36900
  {
    WindowSlotsMembership(TimeFrame(34200, 36900, 0), [], 1800, 36000);
  }

  /**
   * Only the start of a slot is compared with the busy intervals: 07:00 is
   * offered for a 30-minute service although a booking starts at 07:15.
   */
  lemma SlotMayOverlapLaterBooking()
    ensures 25200 in WindowSlots(TimeFrame(25200, 36000, 0), [Interval(26100, 27900)], 1800)
  {
    var busy := [Interval(26100, 27900)];
    assert !Busy(busy, 25200);
    WindowSlotsMembership(TimeFrame(25200, 36000, 0), busy, 1800, 25200);
  }

  /**
   * A frame of six steps with one booking exactly on its third step (for
   * example 07:00–10:00, a 30-minute service with no gap and a booking
   * 08:00–08:30): only the booked start is dropped, and the step right after
   * the booking is offered because the booking's end is exclusive.
   */
  lemma BookingHidesOnlyItsStart(open: int, step: int)
    requires step > 0
    ensures WindowSlots(TimeFrame(open, open + 6 * step, 0), [Interval(open + 2 * step, open + 3 * step)], step)
            == [open, open + step, open + 3 * step, open + 4 * step, open + 5 * step]
  {
    var t1, t2, t3, t4, t5 := open + step, open + 2 * step, open + 3 * step, open + 4 * step, open + 5 * step;
    var busy, end := [Interval(t2, t3)], open + 6 * step;
    assert Free(busy, Grid(end, end, step)) == [];
    KeepFree(busy, t5, end, end, step, []);
    KeepFree(busy, t4, t5, end, step, [t5]);
    KeepFree(busy, t3, t4, end, step, [t4, t5]);
    DropBusy(busy, t2, t3, end, step, [t3, t4, t5]);
    KeepFree(busy, t1, t2, end, step, [t3, t4, t5]);
    KeepFree(busy, open, t1, end, step, [t1, t3, t4, t5]);
  }

  /** A start inside the single booking is dropped. */
  lemma DropBusy(busy: seq<Interval>, c: int, next: int, end: int, step: int, rest: seq<int>)
    requires step > 0 && c < end && |busy| == 1 && busy[0].start <= c < busy[0].end
    requires next == c + step && Free(busy, Grid(next, end, step)) == rest
    ensures Free(busy, Grid(c, end, step)) == rest
  {
    FreeGridUnfold(busy, c, end, step);
    assert busy == [busy[0]];
    SingleBusy(busy[0], c);
  }

  /** A start outside the single booking is kept in front of the later slots. */
  lemma KeepFree(busy: seq<Interval>, c: int, next: int, end: int, step: int, rest: seq<int>)
    requires step > 0 && c < end && |busy| == 1 && !(busy[0].start <= c < busy[0].end)
    requires next == c + step && Free(busy, Grid(next, end, step)) == rest
    ensures Free(busy, Grid(c, end, step)) == [c] + rest
  {
    FreeGridUnfold(busy, c, end, step);
    assert busy == [busy[0]];
    SingleBusy(busy[0], c);
  }

  /** With a single booking, a time is busy exactly when the booking holds it. */
  lemma SingleBusy(iv: Interval, t: int)
    ensures Busy([iv], t) <==> iv.start <= t < iv.end
  {
    if iv.start <= t < iv.end {
      assert [iv][0] == iv;
    }
  }
}
