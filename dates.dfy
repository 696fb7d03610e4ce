/** Dates as the analyzer reads them. Parsing a date string (`new Date(s)`)
    is done by the platform and is a parameter of the model: it yields the
    fields the analyzer asks for, in local time, or nothing for an invalid
    date. The month and weekday names are those of the `sv-SE` locale. */
module Dates {
  import opened Text
  import opened Seqs

  datatype Option<T> = None | Some(value: T)

  type MonthIndex = m: int | 0 <= m < 12
  type Weekday = d: int | 0 <= d < 7
  type Hour = h: int | 0 <= h < 24

  /** A valid date: `getTime()`, `getFullYear()`, `getMonth()`, `getDay()`
      (0 is Sunday) and `getHours()`. */
  datatype Stamp = Stamp(time: int, year: int, month: MonthIndex, weekday: Weekday, hour: Hour)

  /** `new Date(s)`: `Some` stamp, or `None` where `getTime()` is NaN. */
  type Parser = string -> Option<Stamp>

  /** `toLocaleString('sv-SE', { month: 'long' })` by month index. */
  const MonthNames: seq<string> := ["januari", "februari", "mars", "april", "maj", "juni",
                                    "juli", "augusti", "september", "oktober", "november", "december"]

  /** `toLocaleString('sv-SE', { weekday: 'long' })` by `getDay()`. */
  const WeekdayNames: seq<string> := ["söndag", "måndag", "tisdag", "onsdag", "torsdag", "fredag", "lördag"]

  /** What `toLocaleString` renders for an invalid date. */
  const InvalidDate: string := "Invalid Date"

  /** The month name of a date, as used for the per-month counts. */
  function MonthLabel(d: Option<Stamp>): string {
    if d.Some? then MonthNames[d.value.month] else InvalidDate
  }

  /** The weekday name of a date, as used for the per-weekday counts. */
  function WeekdayLabel(d: Option<Stamp>): string {
    if d.Some? then WeekdayNames[d.value.weekday] else InvalidDate
  }

  /** The property name `hourCounts[date.getHours()]` uses: the decimal hour,
      or "NaN" for an invalid date. */
  function HourKey(d: Option<Stamp>): string {
    if d.Some? then NatToDec(d.value.hour) else "NaN"
  }

  /** All the labels a month count can carry. */
  const MonthLabels: set<string> := set m | m in MonthNames + [InvalidDate]

  const WeekdayLabels: set<string> := set w | w in WeekdayNames + [InvalidDate]

  /** Two dates get the same month label exactly when both are invalid or
      both fall in the same month of the year. */
  lemma MonthLabelSame(a: Option<Stamp>, b: Option<Stamp>)
    ensures MonthLabel(a) == MonthLabel(b) <==>
      (a.None? && b.None?) || (a.Some? && b.Some? && a.value.month == b.value.month)
  {
    assert Distinct(MonthNames + [InvalidDate]);
    if a.Some? && b.None? {
      assert MonthLabel(a) == (MonthNames + [InvalidDate])[a.value.month];
      assert MonthLabel(b) == (MonthNames + [InvalidDate])[12];
    }
    if a.None? && b.Some? {
      assert MonthLabel(b) == (MonthNames + [InvalidDate])[b.value.month];
      assert MonthLabel(a) == (MonthNames + [InvalidDate])[12];
    }
  }

  /** Two dates get the same weekday label exactly when both are invalid or
      both fall on the same day of the week. */
  lemma WeekdayLabelSame(a: Option<Stamp>, b: Option<Stamp>)
    ensures WeekdayLabel(a) == WeekdayLabel(b) <==>
      (a.None? && b.None?) || (a.Some? && b.Some? && a.value.weekday == b.value.weekday)
  {
    assert Distinct(WeekdayNames + [InvalidDate]);
    if a.Some? && b.None? {
      assert WeekdayLabel(a) == (WeekdayNames + [InvalidDate])[a.value.weekday];
      assert WeekdayLabel(b) == (WeekdayNames + [InvalidDate])[7];
    }
    if a.None? && b.Some? {
      assert WeekdayLabel(b) == (WeekdayNames + [InvalidDate])[b.value.weekday];
      assert WeekdayLabel(a) == (WeekdayNames + [InvalidDate])[7];
    }
  }

  /** Two dates get the same hour key exactly when both are invalid or both
      fall in the same hour. */
  lemma HourKeySame(a: Option<Stamp>, b: Option<Stamp>)
    ensures HourKey(a) == HourKey(b) <==>
      (a.None? && b.None?) || (a.Some? && b.Some? && a.value.hour == b.value.hour)
  {
    if a.Some? && b.Some? && HourKey(a) == HourKey(b) {
      NatToDecInjective(a.value.hour, b.value.hour);
    }
    if a.Some? && b.None? {
      assert '0' <= HourKey(a)[0] <= '9';
    }
    if a.None? && b.Some? {
      assert '0' <= HourKey(b)[0] <= '9';
    }
  }

  /** There are thirteen month labels: twelve names and "Invalid Date". */
  lemma MonthLabelsSize()
    ensures |MonthLabels| == 13
    ensures forall d :: MonthLabel(d) in MonthLabels
  {
    assert Distinct(MonthNames + [InvalidDate]);
    DistinctCard(MonthNames + [InvalidDate]);
    forall d ensures MonthLabel(d) in MonthLabels {
      if d.Some? {
        assert MonthLabel(d) == (MonthNames + [InvalidDate])[d.value.month];
      }
    }
  }

  /** There are eight weekday labels: seven names and "Invalid Date". */
  lemma WeekdayLabelsSize()
    ensures |WeekdayLabels| == 8
    ensures forall d :: WeekdayLabel(d) in WeekdayLabels
  {
    assert Distinct(WeekdayNames + [InvalidDate]);
    DistinctCard(WeekdayNames + [InvalidDate]);
    forall d ensures WeekdayLabel(d) in WeekdayLabels {
      if d.Some? {
        assert WeekdayLabel(d) == (WeekdayNames + [InvalidDate])[d.value.weekday];
      }
    }
  }

  /** The decimal hours "0" to "23". */
  const HourNames: seq<string> := seq(24, h requires 0 <= h < 24 => NatToDec(h))

  /** All the keys an hour count can carry: "0" to "23" and "NaN". */
  const HourKeys: set<string> := set k | k in HourNames + ["NaN"]

  /** There are twenty-five hour keys. */
  lemma HourKeysSize()
    ensures |HourKeys| == 25
    ensures forall d :: HourKey(d) in HourKeys
  {
    var all := HourNames + ["NaN"];
    forall i, j | 0 <= i < j < |all| ensures all[i] != all[j] {
      if j < 24 {
        if all[i] == all[j] {
          NatToDecInjective(i, j);
        }
      } else {
        assert '0' <= all[i][0] <= '9';
      }
    }
    DistinctCard(all);
    forall d ensures HourKey(d) in HourKeys {
      if d.Some? {
        assert HourKey(d) == all[d.value.hour];
      } else {
        assert HourKey(d) == all[24];
      }
    }
  }
}
