/** The clock arithmetic of domain/notification: hours, days, and buckets shifted to a viewer's
    local time. */
module Clock {
  const DAY := 86400

  /** Go's remainder has the sign of its first operand. */
  function GoMod(a: int, b: int): int
    requires b > 0
  {
    if a >= 0 then a % b else -((-a) % b)
  }

  datatype Slot = Slot(day: int, hour: int)

  /** time.Unix(t, 0).UTC(): its weekday, Sunday being 0, and its hour. */
  function SlotOf(t: int): Slot {
    Slot((t / DAY + 4) % 7, t / 3600 % 24)
  }

  /** slotKey: the seasonal slot of a bucket, by hour of the week or by day of the week. */
  function SlotKey(bucketStart: int, tz: int, hourly: bool): int {
    var s := SlotOf(bucketStart + tz);
    if hourly then s.day * 24 + s.hour else s.day
  }

  /** occurrenceKey: the local hour or day a bucket falls in, as a local time. */
  function OccurrenceKey(bucketStart: int, size: int, tz: int): int
    requires size > 0
  {
    var local := bucketStart + tz;
    local - GoMod(GoMod(local, size) + size, size)
  }

  /** bucketStart in stats.go: the UTC start of the local bucket a time falls in. */
  function ChartStart(ts: int, size: int, tz: int): int
    requires size > 0
  {
    OccurrenceKey(ts, size, tz) - tz
  }

  /** The two remainders in occurrenceKey make up for Go's negative ones: the key is the start of the
      local bucket for times before 1970 and negative offsets too. */
  lemma OccurrenceFloors(b: int, size: int, tz: int)
    requires size > 0
    ensures OccurrenceKey(b, size, tz) % size == 0
    ensures OccurrenceKey(b, size, tz) <= b + tz < OccurrenceKey(b, size, tz) + size
  {
    var local := b + tz;
    FloorMod(local, size);
    Euclid(local - local % size, local / size, 0, size);
    hide GoMod;
  }

  lemma FloorMod(a: int, size: int)
    requires size > 0
    ensures GoMod(GoMod(a, size) + size, size) == a % size
  {
    if a >= 0 {
      Euclid(a % size + size, 1, a % size, size);
    } else {
      var q, m := -a / size, -a % size;
      assert -(q + 1) * size == -(q * size) - size;
      if m == 0 {
        Euclid(size, 1, 0, size);
        Euclid(a, -q, 0, size);
      } else {
        Euclid(size - m, 0, size - m, size);
        Euclid(a, -(q + 1), size - m, size);
      }
    }
  }

  /** The remainder has the sign of what is divided, and taking it away leaves a multiple. */
  lemma GoRemainder(a: int, b: int)
    requires b > 0
    ensures -b < GoMod(a, b) < b && (a - GoMod(a, b)) % b == 0
    ensures (a >= 0 ==> GoMod(a, b) >= 0) && (a <= 0 ==> GoMod(a, b) <= 0)
  {
    if a >= 0 {
      Euclid(a - a % b, a / b, 0, b);
    } else {
      var q := -a / b;
      assert -q * b == -(q * b);
      Euclid(a + -a % b, -q, 0, b);
    }
  }

  lemma Euclid(a: int, q: int, r: int, size: int)
    requires 0 <= r < size && a == q * size + r
    ensures a / size == q && a % size == r
  {
    var d := a / size;
    assert a == d * size + a % size;
    assert (q - d) * size == a % size - r;
    if q > d { AtLeastOne(q - d, size); }
    if q < d { AtLeastOne(d - q, size); }
  }

  lemma AtLeastOne(k: int, size: int)
    requires k >= 1 && size > 0
    ensures k * size >= size
  {
    assert k * size == (k - 1) * size + size;
  }

  /** A bucket that ends a stretch of whole hours is read in the slot of every moment in it. */
  lemma SameHourSameSlot(h: int, t: int)
    requires h % 3600 == 0 && h <= t < h + 3600
    ensures SlotOf(t) == SlotOf(h)
  {
    assert t / 3600 == h / 3600;
    assert t / DAY == h / DAY by {
      assert t / DAY == t / 3600 / 24 && h / DAY == h / 3600 / 24;
    }
  }

  /** AnomalyScan's slots are right for every offset: the slot of an occurrence, not shifted again,
      is the slot of the local hour. */
  lemma OccurrenceSlot(b: int, tz: int)
    ensures SlotKey(OccurrenceKey(b, 3600, tz), 0, true) == SlotKey(b, tz, true)
  {
    OccurrenceFloors(b, 3600, tz);
    SameHourSameSlot(OccurrenceKey(b, 3600, tz), b + tz);
  }

  function BaselineSize(hourly: bool): int { if hourly then 3600 else DAY }

  /** Baseline shifts its occurrences a second time, while the chart's buckets are shifted once. */
  ghost predicate BaselineAgrees(b: int, tz: int, hourly: bool) {
    var size := BaselineSize(hourly);
    SlotKey(OccurrenceKey(b, size, tz), tz, hourly) == SlotKey(ChartStart(b, size, tz), tz, hourly)
  }

  /** So for an hourly chart its slots agree with the chart's exactly when the offset's whole hours
      make up whole weeks - in practice, for offsets of less than an hour east of Greenwich. */
  lemma BaselineHourSlots(tz: int)
    ensures (forall b :: BaselineAgrees(b, tz, true)) <==> tz / 3600 % 168 == 0
  {
    forall b ensures BaselineAgrees(b, tz, true) <==> tz / 3600 % 168 == 0 { BaselineHourSlot(b, tz); }
    assert BaselineAgrees(0, tz, true) <==> tz / 3600 % 168 == 0;
  }

  lemma BaselineHourSlot(b: int, tz: int)
    ensures BaselineAgrees(b, tz, true) <==> tz / 3600 % 168 == 0
  {
    OccurrenceFloors(b, 3600, tz);
    var o := OccurrenceKey(b, 3600, tz);
    HourOfWeek(o);
    HourOfWeek(o + tz);
    assert (o + tz) / 3600 == o / 3600 + tz / 3600;
    SameResidue(o / 3600 + 96, tz / 3600);
  }

  lemma SameResidue(x: int, q: int)
    ensures (x + q) % 168 == x % 168 <==> q % 168 == 0
  {
  }

  /** For a daily chart, exactly when the offset's whole days make up whole weeks - in practice, for
      all offsets that are not negative, and for none that is. */
  lemma BaselineDaySlots(tz: int)
    ensures (forall b :: BaselineAgrees(b, tz, false)) <==> tz / DAY % 7 == 0
  {
    forall b ensures BaselineAgrees(b, tz, false) <==> tz / DAY % 7 == 0 { BaselineDaySlot(b, tz); }
    assert BaselineAgrees(0, tz, false) <==> tz / DAY % 7 == 0;
  }

  lemma BaselineDaySlot(b: int, tz: int)
    ensures BaselineAgrees(b, tz, false) <==> tz / DAY % 7 == 0
  {
    OccurrenceFloors(b, DAY, tz);
    var o := OccurrenceKey(b, DAY, tz);
    assert (o + tz) / DAY == o / DAY + tz / DAY;
  }

  /** Hour slots number the hours of the week: the epoch fell on a Thursday. */
  lemma HourOfWeek(t: int)
    ensures 0 <= SlotOf(t).day < 7 && 0 <= SlotOf(t).hour < 24
    ensures SlotOf(t).day * 24 + SlotOf(t).hour == (t / 3600 + 96) % 168
  {
    var h := t / 3600;
    assert t / DAY == h / 24;
  }

  /** The slots of a chart number the local hours of the week from Sunday's first on, or its local days. */
  lemma SlotsNumber(b: int, tz: int)
    ensures SlotKey(b, tz, true) == ((b + tz) / 3600 + 96) % 168
    ensures SlotKey(b, tz, false) == ((b + tz) / (24 * 3600) + 4) % 7
  {
    HourOfWeek(b + tz);
  }
}
