/** Clock arithmetic, in whole seconds since the Unix epoch. */
module Clock {
  const HOUR: nat := 3600
  const DAY: nat := 86400

  /** The natural day a quota counter belongs to. */
  function DayOf(t: nat): nat { t / DAY }

  /** `Truncate(time.Hour)`, as Unix seconds. */
  function HourStart(t: nat): nat { t - t % HOUR }

  /** `Truncate(24 * time.Hour)`, as Unix seconds. */
  function Midnight(t: nat): nat { t - t % DAY }

  /** A ledger query from midnight on selects exactly the hour buckets of that day and later: the
      hour grid refines the day grid. */
  lemma HourBucketsFollowDays(at: nat, now: nat)
    ensures HourStart(at) >= HourStart(Midnight(now)) <==> DayOf(at) >= DayOf(now)
  {
    var h, d := at / HOUR, now / DAY;
    assert HourStart(at) == HOUR * h;
    assert Midnight(now) == DAY * d == HOUR * (24 * d);
    assert Midnight(now) % HOUR == 0;
    assert DayOf(at) == h / 24 by {
      assert at == HOUR * h + at % HOUR;
      assert h == 24 * (h / 24) + h % 24;
      assert at == DAY * (h / 24) + (HOUR * (h % 24) + at % HOUR);
    }
    assert h >= 24 * d <==> h / 24 >= d;
  }

  lemma DayMonotone(s: nat, t: nat)
    requires s <= t
    ensures DayOf(s) <= DayOf(t)
  {
  }
}
