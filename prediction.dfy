/** The activity forecast: the mails with a valid date, in time order, are
    counted per `"YYYY-MM"` month key in a `Map` and per year in a twelve-slot
    array; the result is the month series in string order and one row per
    year, in ascending year order. */
module Prediction {
  import opened Seqs
  import opened Text
  import opened Ordering
  import opened Counter
  import opened Dates
  import opened Rows

  /** One element of `yearOverYear`. */
  datatype YearRow = YearRow(year: int, total: nat, monthlyDistribution: seq<nat>)

  /** The result of `predictEmailActivity`: `historicalData.labels`,
      `historicalData.values` and `yearOverYear`. */
  datatype Forecast = Forecast(labels: seq<string>, values: seq<nat>, yearOverYear: seq<YearRow>)

  /** `!isNaN(new Date(email[4]).getTime())` */
  predicate HasDate(parse: Parser, r: Row) {
    parse(DateString(r)).Some?
  }

  function IsValid(parse: Parser): Row -> bool {
    (r: Row) => HasDate(parse, r)
  }

  /** The parsed date of a mail, the epoch for a mail without one (never
      asked for). */
  function StampOf(parse: Parser, r: Row): Stamp {
    match parse(DateString(r))
    case Some(st) => st
    case None => Stamp(0, 1970, 0, 4, 0)
  }

  /** `new Date(a[4]).getTime()`, the key of the chronological sort. */
  function TimeOf(parse: Parser): Row -> int {
    (r: Row) => StampOf(parse, r).time
  }

  /** `validEmails` */
  function ValidMails(rows: seq<Row>, parse: Parser): seq<Row> {
    Filter(rows, IsValid(parse))
  }

  /** `sortedEmails`: the valid mails, earliest first; mails with the same
      time keep their order. */
  function Chronological(rows: seq<Row>, parse: Parser): seq<Row> {
    SortBy(ValidMails(rows, parse), TimeOf(parse))
  }

  /** `${year}-${String(month + 1).padStart(2, '0')}` */
  function MonthKey(year: int, month: MonthIndex): string {
    IntToDec(year) + "-" + Pad2(month + 1)
  }

  function KeyOf(parse: Parser, r: Row): string {
    MonthKey(StampOf(parse, r).year, StampOf(parse, r).month)
  }

  function MonthKeys(rs: seq<Row>, parse: Parser): (ks: seq<string>)
    ensures |ks| == |rs|
  {
    seq(|rs|, i requires 0 <= i < |rs| => KeyOf(parse, rs[i]))
  }

  function YearList(rs: seq<Row>, parse: Parser): (ys: seq<int>)
    ensures |ys| == |rs|
  {
    seq(|rs|, i requires 0 <= i < |rs| => StampOf(parse, rs[i]).year)
  }

  /** The mails dated in month `m` of year `y`. */
  function InMonth(parse: Parser, y: int, m: int): Row -> bool {
    (r: Row) => HasDate(parse, r) && StampOf(parse, r).year == y && StampOf(parse, r).month == m
  }

  function MonthCount(rs: seq<Row>, parse: Parser, y: int, m: int): nat {
    |Filter(rs, InMonth(parse, y, m))|
  }

  /** `monthlyData` after the pass. */
  function Monthly(rows: seq<Row>, parse: Parser): seq<Entry> {
    Tally(MonthKeys(Chronological(rows, parse), parse))
  }

  /** `sortedMonths` */
  function SortedMonths(rows: seq<Row>, parse: Parser): seq<string> {
    SortStrings(KeysOf(Monthly(rows, parse)))
  }

  /** The years in the order `yearlyData` first sees them. */
  function YearsSeen(rows: seq<Row>, parse: Parser): seq<int> {
    Dedup(YearList(Chronological(rows, parse), parse))
  }

  /** The twelve month counts of year `y` over `rs`. */
  function YearDistribution(rs: seq<Row>, parse: Parser, y: int): (d: seq<nat>)
    ensures |d| == 12
  {
    seq(12, m requires 0 <= m < 12 => MonthCount(rs, parse, y, m))
  }

  /** `yearlyData.get(y)` after the pass. */
  function Distribution(rows: seq<Row>, parse: Parser, y: int): (d: seq<nat>)
    ensures |d| == 12
  {
    YearDistribution(ValidMails(rows, parse), parse, y)
  }

  /** `monthlyDistribution.reduce((a, b) => a + b, 0)` */
  function Sum(s: seq<nat>): nat {
    if |s| == 0 then 0 else s[0] + Sum(s[1..])
  }

  function RowOfYear(rows: seq<Row>, parse: Parser, y: int): YearRow {
    YearRow(y, Sum(Distribution(rows, parse, y)), Distribution(rows, parse, y))
  }

  /** `Array.from(yearlyData.entries()).map(...)` */
  function YearRows(rows: seq<Row>, parse: Parser): (yr: seq<YearRow>)
    ensures |yr| == |YearsSeen(rows, parse)|
  {
    var ys := YearsSeen(rows, parse);
    seq(|ys|, i requires 0 <= i < |ys| => RowOfYear(rows, parse, ys[i]))
  }

  /** The key of `(a, b) => a.year - b.year`. */
  function YearKey(e: YearRow): int {
    e.year
  }

  /** `sortedMonths.map(...)`: the label of each month. */
  function Labels(months: seq<string>): (ls: seq<string>)
    ensures |ls| == |months|
  {
    seq(|months|, i requires 0 <= i < |months| => Label(months[i]))
  }

  /** `sortedMonths.map(key => monthlyData.get(key) || 0)` */
  function Values(monthly: seq<Entry>, months: seq<string>): (vs: seq<nat>)
    ensures |vs| == |months|
  {
    seq(|months|, i requires 0 <= i < |months| => Lookup(monthly, months[i]))
  }

  /** `yearOverYear`: the year rows sorted by year. */
  function YearOverYear(rows: seq<Row>, parse: Parser): seq<YearRow> {
    SortBy(YearRows(rows, parse), YearKey)
  }

  /** `predictEmailActivity(emails)` stated declaratively. */
  function Predicted(rows: seq<Row>, parse: Parser): Forecast {
    var months := SortedMonths(rows, parse);
    Forecast(Labels(months), Values(Monthly(rows, parse), months), YearOverYear(rows, parse))
  }

  /** `predictEmailActivity`: filter, sort, one counting pass updating the
      month map and the year arrays in place, then the series and the rows. */
  method PredictActivity(rows: seq<Row>, parse: Parser) returns (f: Forecast)
    ensures f == Predicted(rows, parse)
  {
    var sorted := SortBy(Filter(rows, IsValid(parse)), TimeOf(parse));
    assert sorted == Chronological(rows, parse);
    ChronologicalValid(rows, parse);
    var monthly, years, yearly := CountPass(sorted, parse);
    assert monthly == Monthly(rows, parse);
    var yoy := YearlyRows(years, yearly);
    PassResult(rows, parse, sorted, years, yearly, yoy);
    var months := SortStrings(KeysOf(monthly));
    assert months == SortedMonths(rows, parse);
    f := Forecast(Labels(months), Values(monthly, months), SortBy(yoy, YearKey));
    assert f.yearOverYear == YearOverYear(rows, parse);
  }

  /** The `forEach` over the sorted mails: `monthlyData` is bumped at the
      mail's month key and its year's array is updated. */
  method CountPass(sorted: seq<Row>, parse: Parser) returns (monthly: seq<Entry>, years: seq<int>, yearly: map<int, array<nat>>)
    requires forall k :: 0 <= k < |sorted| ==> HasDate(parse, sorted[k])
    ensures monthly == Tally(MonthKeys(sorted, parse))
    ensures YearsCounted(sorted, parse, years, yearly)
    ensures forall a :: a in yearly.Values ==> fresh(a)
  {
    monthly, years, yearly := [], [], map[];
    var i := 0;
    while i < |sorted|
      invariant 0 <= i <= |sorted|
      invariant monthly == Tally(MonthKeys(sorted[..i], parse))
      invariant YearsCounted(sorted[..i], parse, years, yearly)
      invariant forall a :: a in yearly.Values ==> fresh(a)
    {
      monthly, years, yearly := CountMail(sorted, i, parse, monthly, years, yearly);
      i := i + 1;
    }
    assert sorted[..i] == sorted;
  }

  /** The years met so far in order of first appearance, each with its array
      of twelve month counts over `done`. */
  ghost predicate YearsCounted(done: seq<Row>, parse: Parser, years: seq<int>, yearly: map<int, array<nat>>)
    reads yearly.Values
  {
    && years == Dedup(YearList(done, parse))
    && YearSlots(yearly, years)
    && SlotsCount(done, parse, yearly)
  }

  /** The month counts of the mails in `done`. */
  function SlotCount(done: seq<Row>, parse: Parser): (int, int) -> nat {
    (y: int, m: int) => MonthCount(done, parse, y, m)
  }

  /** Slot `m` of the array of year `y` holds the mails of `done` dated in
      that month. */
  ghost predicate SlotsCount(done: seq<Row>, parse: Parser, yearly: map<int, array<nat>>)
    reads yearly.Values
  {
    SlotsHold(yearly, SlotCount(done, parse))
  }

  ghost predicate SlotsHold(yearly: map<int, array<nat>>, count: (int, int) -> nat)
    reads yearly.Values
  {
    forall y, m :: y in yearly && 0 <= m < yearly[y].Length ==> yearly[y][m] == count(y, m)
  }

  /** One step of the pass: `monthlyData.set(key, (monthlyData.get(key) || 0) + 1)`
      and the year update. */
  method CountMail(sorted: seq<Row>, i: int, parse: Parser, monthly: seq<Entry>, years: seq<int>, yearly: map<int, array<nat>>)
    returns (monthly': seq<Entry>, years': seq<int>, yearly': map<int, array<nat>>)
    requires 0 <= i < |sorted| && HasDate(parse, sorted[i])
    requires monthly == Tally(MonthKeys(sorted[..i], parse))
    requires YearsCounted(sorted[..i], parse, years, yearly)
    modifies yearly.Values
    ensures monthly' == Tally(MonthKeys(sorted[..i + 1], parse))
    ensures YearsCounted(sorted[..i + 1], parse, years', yearly')
    ensures forall a :: a in yearly'.Values ==> a in yearly.Values || fresh(a)
  {
    var r := sorted[i];
    PrefixSnoc(sorted, i);
    var date := parse(DateString(r));
    var key := MonthKey(date.value.year, date.value.month);
    MonthlySnoc(sorted[..i], r, parse, key);
    monthly' := Bump(monthly, key);
    years', yearly' := CountYear(sorted[..i], r, parse, years, yearly);
  }

  lemma MonthlySnoc(done: seq<Row>, r: Row, parse: Parser, key: string)
    requires key == KeyOf(parse, r)
    ensures Tally(MonthKeys(done + [r], parse)) == Bump(Tally(MonthKeys(done, parse)), key)
  {
    KeysSnoc(done, r, parse);
    TallySnoc(MonthKeys(done, parse), key);
  }

  /** The year half of one step of the pass. */
  method CountYear(done: seq<Row>, r: Row, parse: Parser, years: seq<int>, yearly: map<int, array<nat>>)
    returns (years': seq<int>, yearly': map<int, array<nat>>)
    requires HasDate(parse, r)
    requires YearsCounted(done, parse, years, yearly)
    modifies yearly.Values
    ensures YearsCounted(done + [r], parse, years', yearly')
    ensures forall a :: a in yearly'.Values ==> a in yearly.Values || fresh(a)
  {
    var date := parse(DateString(r));
    var year, month := date.value.year, date.value.month;
    KeysSnoc(done, r, parse);
    DedupSnoc(YearList(done, parse), year);
    var before, after := SlotCount(done, parse), SlotCount(done + [r], parse);
    forall y, m ensures after(y, m) == before(y, m) + (if y == year && m == month then 1 else 0) {
      MonthCountSnoc(done, r, parse, y, m);
    }
    if year !in yearly {
      forall m ensures before(year, m) == 0 {
        NoMonthCount(done, parse, year, m);
      }
    }
    years', yearly' := FileYear(years, yearly, year, month, before, after);
  }

  /** `if (!yearlyData.has(year)) yearlyData.set(year, new Array(12).fill(0))`
      followed by `yearlyData.get(year)[month]++`: the slot counts go from
      `before` to `after`, which differ by one in that month. */
  method FileYear(years: seq<int>, yearly: map<int, array<nat>>, year: int, month: MonthIndex,
                  before: (int, int) -> nat, after: (int, int) -> nat)
    returns (years': seq<int>, yearly': map<int, array<nat>>)
    requires YearSlots(yearly, years)
    requires SlotsHold(yearly, before)
    requires year !in yearly ==> forall m :: before(year, m) == 0
    requires forall y, m :: after(y, m) == before(y, m) + (if y == year && m == month then 1 else 0)
    modifies yearly.Values
    ensures years' == if year in years then years else years + [year]
    ensures YearSlots(yearly', years')
    ensures SlotsHold(yearly', after)
    ensures forall a :: a in yearly'.Values ==> a in yearly.Values || fresh(a)
  {
    years', yearly' := years, yearly;
    if year !in yearly {
      var slots := new nat[12](_ => 0);
      yearly' := yearly[year := slots];
      years' := years + [year];
    }
    assert SlotsHold(yearly', before);
    label filed:
    yearly'[year][month] := yearly'[year][month] + 1;
    forall y, m | y in yearly' && 0 <= m < yearly'[y].Length ensures yearly'[y][m] == after(y, m) {
      assert yearly'[y][m] == old@filed(yearly'[y][m]) + (if y == year && m == month then 1 else 0);
    }
  }

  /** `Array.from(yearlyData.entries()).map(...)`: one row per year, in the
      order the years were first seen, with the array's contents and sum. */
  method YearlyRows(years: seq<int>, yearly: map<int, array<nat>>) returns (yoy: seq<YearRow>)
    requires forall k :: 0 <= k < |years| ==> years[k] in yearly
    ensures |yoy| == |years|
    ensures forall k :: 0 <= k < |years| ==> yoy[k] == YearRow(years[k], Sum(yearly[years[k]][..]), yearly[years[k]][..])
  {
    yoy := [];
    var j := 0;
    while j < |years|
      invariant 0 <= j <= |years|
      invariant |yoy| == j
      invariant forall k :: 0 <= k < j ==> yoy[k] == YearRow(years[k], Sum(yearly[years[k]][..]), yearly[years[k]][..])
    {
      var dist := yearly[years[j]][..];
      yoy := yoy + [YearRow(years[j], Sum(dist), dist)];
      j := j + 1;
    }
  }

  /** The year map and its key order agree, every year has its own array of
      twelve slots. */
  ghost predicate YearSlots(yearly: map<int, array<nat>>, years: seq<int>) {
    && (forall y :: y in yearly <==> y in years)
    && (forall y :: y in yearly ==> yearly[y].Length == 12)
    && (forall y, z :: y in yearly && z in yearly && y != z ==> yearly[y] != yearly[z])
  }

  /** The label of a month key: the year part and the two month digits,
      joined again by `-`. */
  function Label(key: string): string {
    if |key| < 3 then key else key[..|key| - 3] + "-" + key[|key| - 2..]
  }

  lemma ChronologicalValid(rows: seq<Row>, parse: Parser)
    ensures forall k :: 0 <= k < |Chronological(rows, parse)| ==> HasDate(parse, Chronological(rows, parse)[k])
  {
    var v, c := ValidMails(rows, parse), Chronological(rows, parse);
    forall k | 0 <= k < |c| ensures HasDate(parse, c[k]) {
      assert c[k] in multiset(v);
      var j :| 0 <= j < |v| && v[j] == c[k];
      assert IsValid(parse)(v[j]);
    }
  }

  lemma KeysSnoc(done: seq<Row>, r: Row, parse: Parser)
    ensures MonthKeys(done + [r], parse) == MonthKeys(done, parse) + [KeyOf(parse, r)]
    ensures YearList(done + [r], parse) == YearList(done, parse) + [StampOf(parse, r).year]
  {
  }

  /** A year not seen yet has no mail in any month. */
  lemma NoMonthCount(rs: seq<Row>, parse: Parser, y: int, m: int)
    requires y !in YearList(rs, parse)
    ensures MonthCount(rs, parse, y, m) == 0
  {
    forall k | 0 <= k < |rs| ensures !InMonth(parse, y, m)(rs[k]) {
      assert YearList(rs, parse)[k] == StampOf(parse, rs[k]).year;
    }
    FilterKeepsNone(rs, InMonth(parse, y, m));
  }

  /** One more mail adds one to the count of its month and nothing to the
      others. */
  lemma MonthCountSnoc(done: seq<Row>, r: Row, parse: Parser, y: int, m: int)
    requires HasDate(parse, r)
    ensures MonthCount(done + [r], parse, y, m)
      == MonthCount(done, parse, y, m) + (if StampOf(parse, r).year == y && StampOf(parse, r).month == m then 1 else 0)
  {
    FilterSnoc(done + [r], InMonth(parse, y, m));
    assert (done + [r])[..|done|] == done;
  }

  /** Month counts do not depend on the order of the mails. */
  lemma MonthCountPermutation(a: seq<Row>, b: seq<Row>, parse: Parser, y: int, m: int)
    requires multiset(a) == multiset(b)
    ensures MonthCount(a, parse, y, m) == MonthCount(b, parse, y, m)
  {
    FilterPermutation(a, b, InMonth(parse, y, m));
    assert |multiset(Filter(a, InMonth(parse, y, m)))| == |multiset(Filter(b, InMonth(parse, y, m)))|;
  }

  /** An array holding the month counts of year `y` over the sorted mails
      holds the distribution of `y` over the valid mails. */
  lemma ArrayDistribution(rows: seq<Row>, parse: Parser, sorted: seq<Row>, a: array<nat>, y: int)
    requires multiset(sorted) == multiset(ValidMails(rows, parse))
    requires a.Length == 12
    requires forall m :: 0 <= m < 12 ==> a[m] == MonthCount(sorted, parse, y, m)
    ensures a[..] == Distribution(rows, parse, y)
  {
    forall m | 0 <= m < 12 ensures a[..][m] == Distribution(rows, parse, y)[m] {
      MonthCountPermutation(sorted, ValidMails(rows, parse), parse, y, m);
    }
  }

  /** The rows built from the year arrays after the pass are the rows of the
      specification. */
  lemma PassResult(rows: seq<Row>, parse: Parser, sorted: seq<Row>, years: seq<int>,
                   yearly: map<int, array<nat>>, yoy: seq<YearRow>)
    requires sorted == Chronological(rows, parse)
    requires years == Dedup(YearList(sorted, parse))
    requires YearSlots(yearly, years)
    requires forall y, m :: y in yearly && 0 <= m < 12 ==> yearly[y][m] == MonthCount(sorted, parse, y, m)
    requires |yoy| == |years|
    requires forall k :: 0 <= k < |years| ==> yoy[k] == YearRow(years[k], Sum(yearly[years[k]][..]), yearly[years[k]][..])
    ensures yoy == YearRows(rows, parse)
  {
    assert multiset(sorted) == multiset(ValidMails(rows, parse));
    assert years == YearsSeen(rows, parse);
    forall k | 0 <= k < |years| ensures yoy[k] == YearRows(rows, parse)[k] {
      var y := years[k];
      assert y in yearly;
      ArrayDistribution(rows, parse, sorted, yearly[y], y);
      assert yoy[k] == RowOfYear(rows, parse, y);
    }
  }

  // Month keys and labels

  /** Different months have different keys: the last two characters give
      the month, everything before the `-` in front of them the year. */
  lemma MonthKeyInjective(y1: int, m1: MonthIndex, y2: int, m2: MonthIndex)
    requires MonthKey(y1, m1) == MonthKey(y2, m2)
    ensures y1 == y2 && m1 == m2
  {
    var k := MonthKey(y1, m1);
    var d1, d2 := IntToDec(y1), IntToDec(y2);
    var p1, p2 := Pad2(m1 + 1), Pad2(m2 + 1);
    assert k == d1 + "-" + p1;
    assert k == d2 + "-" + p2;
    assert p1 == k[|k| - 2..] == p2;
    assert (m1 + 1) / 10 == (m2 + 1) / 10 && (m1 + 1) % 10 == (m2 + 1) % 10;
    assert d1 == k[..|k| - 3] == d2;
    IntToDecInjective(y1, y2);
  }

  /** The label of a month key is the key: the year part is everything
      before the `-` that precedes the two month digits, so the sign of a
      negative year stays in it. */
  lemma LabelOfKey(y: int, m: MonthIndex)
    ensures Label(MonthKey(y, m)) == MonthKey(y, m)
  {
    var k := MonthKey(y, m);
    assert k[..|k| - 3] == IntToDec(y);
    assert k[|k| - 2..] == Pad2(m + 1);
  }

  /** The labels as the source computes them: the key is split at every `-`
      and the first two fields are joined again. */
  function LabelAsWritten(key: string): string {
    var parts := Split(key, '-');
    parts[0] + "-" + (if |parts| > 1 then parts[1] else "undefined")
  }

  /** For a year of zero or more the split finds exactly the two fields and
      the label is the key. */
  lemma LabelAsWrittenKeeps(y: int, m: MonthIndex)
    requires y >= 0
    ensures LabelAsWritten(MonthKey(y, m)) == MonthKey(y, m)
  {
    var d, p := IntToDec(y), Pad2(m + 1);
    forall k | 0 <= k < |d| ensures d[k] != '-' {
    }
    assert MonthKey(y, m) == d + ['-'] + p;
    SplitTwo(d, p, '-');
  }

  /** A negative year (`getFullYear()` of a date before year 1, which `Date`
      accepts) gives a key that starts with `-`: the split's first field is
      empty, the second is the year's digits, and the label is the year
      alone with the month lost. */
  lemma LabelAsWrittenNegative(y: int, m: MonthIndex)
    requires y < 0
    ensures LabelAsWritten(MonthKey(y, m)) == IntToDec(y)
    ensures LabelAsWritten(MonthKey(y, m)) != MonthKey(y, m)
  {
    NegativeKeyFields(y, m);
    LabelOfFields(MonthKey(y, m), "", NatToDec(-y), Pad2(m + 1));
  }

  /** The written label of a key with three fields is its first two. */
  lemma LabelOfFields(key: string, a: string, b: string, c: string)
    requires Split(key, '-') == [a, b, c]
    ensures LabelAsWritten(key) == a + "-" + b
    ensures |key| == |a| + |b| + |c| + 2
  {
    JoinSplit(key, '-');
    JoinThree(a, b, c, '-');
  }

  lemma JoinThree(a: string, b: string, c: string, sep: char)
    ensures |Join([a, b, c], sep)| == |a| + |b| + |c| + 2
  {
    assert [a, b, c][1..] == [b, c];
    assert [b, c][1..] == [c];
    assert Join([b, c], sep) == b + [sep] + c;
    assert Join([a, b, c], sep) == a + [sep] + Join([b, c], sep);
  }

  /** Splitting a negative year's key at `-` gives three fields. */
  lemma NegativeKeyFields(y: int, m: MonthIndex)
    requires y < 0
    ensures Split(MonthKey(y, m), '-') == ["", NatToDec(-y), Pad2(m + 1)]
  {
    NegativeKeyShape(y, m);
    SplitThree([], NatToDec(-y), Pad2(m + 1), '-');
  }

  lemma NegativeKeyShape(y: int, m: MonthIndex)
    requires y < 0
    ensures MonthKey(y, m) == [] + ['-'] + (NatToDec(-y) + ['-'] + Pad2(m + 1))
    ensures '-' !in NatToDec(-y) && '-' !in Pad2(m + 1)
  {
    var n := NatToDec(-y);
    forall k | 0 <= k < |n| ensures n[k] != '-' {
    }
  }

  /** The smallest case: March of year -5 has the key `-5-03` and the label
      `-5`. */
  lemma NegativeYearLabel()
    ensures LabelAsWritten(MonthKey(-5, 2)) == "-5"
    ensures MonthKey(-5, 2) == "-5-03"
  {
    LabelAsWrittenNegative(-5, 2);
    MinusFive();
    PaddedThree();
  }

  lemma MinusFive()
    ensures IntToDec(-5) == "-5"
  {
    assert DigitChar(5) == '5';
    assert NatToDec(5) == "5";
  }

  lemma PaddedThree()
    ensures Pad2(3) == "03"
  {
    assert DigitChar(3) == '3';
    assert NatToDec(3) == "3";
  }

  // The month series

  /** Among mails that all have a date, the number with key
      `MonthKey(y, m)` is the number dated in month `m` of year `y`. */
  lemma {:induction false} KeyCount(rs: seq<Row>, parse: Parser, y: int, m: MonthIndex)
    requires forall k :: 0 <= k < |rs| ==> HasDate(parse, rs[k])
    ensures multiset(MonthKeys(rs, parse))[MonthKey(y, m)] == MonthCount(rs, parse, y, m)
    decreases |rs|
  {
    if |rs| == 0 {
      assert MonthKeys(rs, parse) == [];
    } else {
      var done, r := rs[..|rs| - 1], rs[|rs| - 1];
      SplitLast(rs);
      KeyCount(done, parse, y, m);
      KeysSnoc(done, r, parse);
      MonthCountSnoc(done, r, parse, y, m);
      var st := StampOf(parse, r);
      if KeyOf(parse, r) == MonthKey(y, m) {
        MonthKeyInjective(st.year, st.month, y, m);
      }
    }
  }

  lemma KeyIn(rs: seq<Row>, parse: Parser, key: string)
    ensures key in MonthKeys(rs, parse) <==> exists r :: r in rs && KeyOf(parse, r) == key
  {
    var ks := MonthKeys(rs, parse);
    if key in ks {
      var j :| 0 <= j < |ks| && ks[j] == key;
      assert rs[j] in rs;
    }
    if r :| r in rs && KeyOf(parse, r) == key {
      var j :| 0 <= j < |rs| && rs[j] == r;
      assert ks[j] == key;
    }
  }

  /** The sorted keys of a tally are its distinct keys. */
  lemma TallyKeysSorted(ks: seq<string>, key: string)
    ensures key in SortStrings(KeysOf(Tally(ks))) <==> key in ks
  {
    TallyCounts(ks);
    assert key in SortStrings(KeysOf(Tally(ks))) <==> key in multiset(KeysOf(Tally(ks)));
  }

  lemma ChronologicalSame(rows: seq<Row>, parse: Parser, r: Row)
    ensures r in Chronological(rows, parse) <==> r in ValidMails(rows, parse)
  {
    assert r in Chronological(rows, parse) <==> r in multiset(Chronological(rows, parse));
  }

  /** A key is on the time axis exactly when some valid mail is dated in
      that month. */
  lemma MonthsListed(rows: seq<Row>, parse: Parser, key: string)
    ensures key in SortedMonths(rows, parse) <==> exists r :: r in ValidMails(rows, parse) && KeyOf(parse, r) == key
  {
    var c := Chronological(rows, parse);
    TallyKeysSorted(MonthKeys(c, parse), key);
    KeyIn(c, parse, key);
    forall r ensures r in c <==> r in ValidMails(rows, parse) {
      ChronologicalSame(rows, parse, r);
    }
  }

  /** Every label is the month key of a valid mail, so the labels are the
      keys themselves. */
  lemma LabelsAreKeys(rows: seq<Row>, parse: Parser)
    ensures Predicted(rows, parse).labels == SortedMonths(rows, parse)
  {
    var months := SortedMonths(rows, parse);
    forall i | 0 <= i < |months| ensures Labels(months)[i] == months[i] {
      MonthsListed(rows, parse, months[i]);
      var r :| r in ValidMails(rows, parse) && KeyOf(parse, r) == months[i];
      LabelOfKey(StampOf(parse, r).year, StampOf(parse, r).month);
    }
  }

  /** The months are in strictly increasing string order, so none is
      listed twice. */
  lemma MonthsAscending(rows: seq<Row>, parse: Parser)
    ensures StrStrictlySorted(SortedMonths(rows, parse))
    ensures |Predicted(rows, parse).labels| == |Predicted(rows, parse).values|
  {
    var ks := MonthKeys(Chronological(rows, parse), parse);
    TallyCounts(ks);
    SortStringsStrict(KeysOf(Tally(ks)));
  }

  /** The value at a month is the number of valid mails dated in it, the
      same number as that month's slot in its year's row. */
  lemma ValueOfMonth(rows: seq<Row>, parse: Parser, i: int, y: int, m: MonthIndex)
    requires 0 <= i < |SortedMonths(rows, parse)|
    requires SortedMonths(rows, parse)[i] == MonthKey(y, m)
    ensures Predicted(rows, parse).values[i] == MonthCount(ValidMails(rows, parse), parse, y, m)
    ensures Predicted(rows, parse).values[i] == Distribution(rows, parse, y)[m]
  {
    var c := Chronological(rows, parse);
    LookupTally(MonthKeys(c, parse), MonthKey(y, m));
    ChronologicalValid(rows, parse);
    KeyCount(c, parse, y, m);
    MonthCountPermutation(c, ValidMails(rows, parse), parse, y, m);
  }

  /** The occurrence counts of `keys` in `s`, one per key. */
  function Occurrences<T(==)>(keys: seq<T>, s: seq<T>): (o: seq<nat>)
    ensures |o| == |keys|
  {
    seq(|keys|, i requires 0 <= i < |keys| => multiset(s)[keys[i]])
  }

  lemma {:induction false} SumOccurrencesSeq<T>(keys: seq<T>, s: seq<T>)
    ensures Sum(Occurrences(keys, s)) == SumOccurrences(keys, s)
    decreases |keys|
  {
    if |keys| > 0 {
      assert Occurrences(keys, s)[1..] == Occurrences(keys[1..], s);
      SumOccurrencesSeq(keys[1..], s);
    }
  }

  /** The value of each month is its number of occurrences among the month
      keys of the valid mails. */
  lemma ValuesAreOccurrences(rows: seq<Row>, parse: Parser)
    ensures Predicted(rows, parse).values
      == Occurrences(SortedMonths(rows, parse), MonthKeys(Chronological(rows, parse), parse))
  {
    var ks := MonthKeys(Chronological(rows, parse), parse);
    var months := SortedMonths(rows, parse);
    forall i | 0 <= i < |months| ensures Predicted(rows, parse).values[i] == multiset(ks)[months[i]] {
      LookupTally(ks, months[i]);
    }
  }

  /** Every listed month has at least one mail. */
  lemma ValuesPositive(rows: seq<Row>, parse: Parser)
    ensures forall i :: 0 <= i < |Predicted(rows, parse).values| ==> Predicted(rows, parse).values[i] >= 1
  {
    var ks := MonthKeys(Chronological(rows, parse), parse);
    var months := SortedMonths(rows, parse);
    ValuesAreOccurrences(rows, parse);
    forall i | 0 <= i < |months| ensures multiset(ks)[months[i]] >= 1 {
      TallyKeysSorted(ks, months[i]);
    }
  }

  /** The values add up to the number of valid mails. */
  lemma ValuesTotal(rows: seq<Row>, parse: Parser)
    ensures Sum(Predicted(rows, parse).values) == |ValidMails(rows, parse)|
  {
    var ks := MonthKeys(Chronological(rows, parse), parse);
    var months := SortedMonths(rows, parse);
    ValuesAreOccurrences(rows, parse);
    MonthsDistinct(ks);
    forall x | x in ks ensures x in months {
      TallyKeysSorted(ks, x);
    }
    SumOccurrencesSeq(months, ks);
    SumOccurrencesTotal(months, ks);
  }

  lemma MonthsDistinct(ks: seq<string>)
    ensures Distinct(SortStrings(KeysOf(Tally(ks))))
  {
    TallyCounts(ks);
    SortStringsStrict(KeysOf(Tally(ks)));
  }

  // The year rows

  /** The mails dated in year `y`. */
  function InYear(parse: Parser, y: int): Row -> bool {
    (r: Row) => HasDate(parse, r) && StampOf(parse, r).year == y
  }

  lemma {:induction false} SumZeros(s: seq<nat>)
    requires forall i :: 0 <= i < |s| ==> s[i] == 0
    ensures Sum(s) == 0
    decreases |s|
  {
    if |s| > 0 {
      SumZeros(s[1..]);
    }
  }

  /** Adding one at one position adds one to the sum. */
  lemma {:induction false} SumBump(a: seq<nat>, b: seq<nat>, j: int)
    requires |a| == |b| && 0 <= j < |a|
    requires b[j] == a[j] + 1
    requires forall i :: 0 <= i < |a| && i != j ==> b[i] == a[i]
    ensures Sum(b) == Sum(a) + 1
    decreases |a|
  {
    if j == 0 {
      assert a[1..] == b[1..];
    } else {
      SumBump(a[1..], b[1..], j - 1);
    }
  }

  /** The twelve month counts of a year add up to the mails dated in it. */
  lemma {:induction false} YearSum(rs: seq<Row>, parse: Parser, y: int)
    ensures Sum(YearDistribution(rs, parse, y)) == |Filter(rs, InYear(parse, y))|
    decreases |rs|
  {
    if |rs| == 0 {
      SumZeros(YearDistribution(rs, parse, y));
    } else {
      var done, r := rs[..|rs| - 1], rs[|rs| - 1];
      SplitLast(rs);
      YearSum(done, parse, y);
      YearSumStep(done, r, parse, y);
      FilterSnoc(rs, InYear(parse, y));
    }
  }

  lemma YearSumStep(done: seq<Row>, r: Row, parse: Parser, y: int)
    ensures Sum(YearDistribution(done + [r], parse, y)) == Sum(YearDistribution(done, parse, y)) + (if InYear(parse, y)(r) then 1 else 0)
  {
    var a, b := YearDistribution(done, parse, y), YearDistribution(done + [r], parse, y);
    MonthsOfSnoc(done, r, parse, y);
    if InYear(parse, y)(r) {
      SumBump(a, b, StampOf(parse, r).month);
    } else {
      assert a == b;
    }
  }

  lemma MonthsOfSnoc(done: seq<Row>, r: Row, parse: Parser, y: int)
    ensures forall m :: 0 <= m < 12 ==>
      YearDistribution(done + [r], parse, y)[m] == YearDistribution(done, parse, y)[m] + (if InYear(parse, y)(r) && StampOf(parse, r).month == m then 1 else 0)
  {
    forall m | 0 <= m < 12 ensures YearDistribution(done + [r], parse, y)[m]
      == YearDistribution(done, parse, y)[m] + (if InYear(parse, y)(r) && StampOf(parse, r).month == m then 1 else 0)
    {
      MonthCountOne(done, r, parse, y, m);
    }
  }

  /** `MonthCountSnoc`, also for a mail without a date. */
  lemma MonthCountOne(done: seq<Row>, r: Row, parse: Parser, y: int, m: int)
    ensures MonthCount(done + [r], parse, y, m)
      == MonthCount(done, parse, y, m) + (if InYear(parse, y)(r) && StampOf(parse, r).month == m then 1 else 0)
  {
    FilterSnoc(done + [r], InMonth(parse, y, m));
    assert (done + [r])[..|done|] == done;
  }

  /** A row of `yearOverYear` is the row of its year, for a year some valid
      mail is dated in. */
  lemma YearRowOf(rows: seq<Row>, parse: Parser, e: YearRow)
    requires e in YearOverYear(rows, parse)
    ensures e == RowOfYear(rows, parse, e.year)
    ensures e.year in YearsSeen(rows, parse)
  {
    var yr, ys := YearRows(rows, parse), YearsSeen(rows, parse);
    SortByMember(yr, YearKey, e);
    var k :| 0 <= k < |yr| && yr[k] == e;
    var y := ys[k];
    assert e == RowOfYear(rows, parse, y);
    assert e.year == y;
  }

  /** A year some valid mail is dated in has at least one mail. */
  lemma YearNotEmpty(rows: seq<Row>, parse: Parser, y: int)
    requires y in YearsSeen(rows, parse)
    ensures |Filter(ValidMails(rows, parse), InYear(parse, y))| >= 1
  {
    YearSeen(rows, parse, y);
    var r :| r in ValidMails(rows, parse) && StampOf(parse, r).year == y;
    var v := ValidMails(rows, parse);
    var j :| 0 <= j < |v| && v[j] == r;
    assert InYear(parse, y)(v[j]);
  }

  /** A row of `yearOverYear`: twelve month counts of its year over the
      valid mails, and a total that is the number of valid mails dated in
      that year. */
  lemma YearRowContents(rows: seq<Row>, parse: Parser, e: YearRow)
    requires e in Predicted(rows, parse).yearOverYear
    ensures |e.monthlyDistribution| == 12
    ensures forall m :: 0 <= m < 12 ==> e.monthlyDistribution[m] == MonthCount(ValidMails(rows, parse), parse, e.year, m)
    ensures e.total == Sum(e.monthlyDistribution)
    ensures e.total == |Filter(ValidMails(rows, parse), InYear(parse, e.year))|
    ensures e.total >= 1
  {
    YearRowOf(rows, parse, e);
    YearSum(ValidMails(rows, parse), parse, e.year);
    YearNotEmpty(rows, parse, e.year);
  }

  /** A year is in `YearsSeen` exactly when some valid mail is dated in it. */
  lemma YearSeen(rows: seq<Row>, parse: Parser, y: int)
    ensures y in YearsSeen(rows, parse) <==> exists r :: r in ValidMails(rows, parse) && StampOf(parse, r).year == y
  {
    var c := Chronological(rows, parse);
    var ys := YearList(c, parse);
    if y in ys {
      var j :| 0 <= j < |ys| && ys[j] == y;
      assert c[j] in multiset(ValidMails(rows, parse));
    }
    if r :| r in ValidMails(rows, parse) && StampOf(parse, r).year == y {
      assert r in multiset(c);
      var j :| 0 <= j < |c| && c[j] == r;
      assert ys[j] == y;
    }
  }

  /** The rows are in strictly increasing year order, so no year has two. */
  lemma YearRowsOrdered(rows: seq<Row>, parse: Parser)
    ensures StrictlySortedBy(Predicted(rows, parse).yearOverYear, YearKey)
  {
    var yr := YearRows(rows, parse);
    var ys := YearsSeen(rows, parse);
    assert DistinctKeys(yr, YearKey) by {
      forall i, j | 0 <= i < j < |yr| ensures YearKey(yr[i]) != YearKey(yr[j]) {
        assert yr[i].year == ys[i] && yr[j].year == ys[j];
      }
    }
    DistinctKeysPermutation(yr, YearOverYear(rows, parse), YearKey);
    SortedDistinctIsStrict(YearOverYear(rows, parse), YearKey);
  }

  /** There is a row for a year exactly when some valid mail is dated in it. */
  lemma YearRowsListed(rows: seq<Row>, parse: Parser, y: int)
    ensures (exists e :: e in Predicted(rows, parse).yearOverYear && e.year == y)
        <==> exists r :: r in ValidMails(rows, parse) && StampOf(parse, r).year == y
  {
    YearSeen(rows, parse, y);
    if e :| e in YearOverYear(rows, parse) && e.year == y {
      YearRowOf(rows, parse, e);
    }
    if y in YearsSeen(rows, parse) {
      YearRowFor(rows, parse, y);
    }
  }

  lemma YearRowFor(rows: seq<Row>, parse: Parser, y: int)
    requires y in YearsSeen(rows, parse)
    ensures RowOfYear(rows, parse, y) in YearOverYear(rows, parse)
  {
    var yr := YearRows(rows, parse);
    var ys := YearsSeen(rows, parse);
    var k :| 0 <= k < |ys| && ys[k] == y;
    assert yr[k] in multiset(YearOverYear(rows, parse));
  }

  lemma ValidHaveDates(rows: seq<Row>, parse: Parser)
    ensures forall k :: 0 <= k < |ValidMails(rows, parse)| ==> HasDate(parse, ValidMails(rows, parse)[k])
  {
    var v := ValidMails(rows, parse);
    forall k | 0 <= k < |v| ensures HasDate(parse, v[k]) {
      assert IsValid(parse)(v[k]);
    }
  }

  /** Among mails that all have a date, those dated in year `y` are the
      occurrences of `y` in their year list. */
  lemma {:induction false} YearCount(rs: seq<Row>, parse: Parser, y: int)
    requires forall k :: 0 <= k < |rs| ==> HasDate(parse, rs[k])
    ensures |Filter(rs, InYear(parse, y))| == multiset(YearList(rs, parse))[y]
    decreases |rs|
  {
    if |rs| == 0 {
      assert YearList(rs, parse) == [];
    } else {
      var done, r := rs[..|rs| - 1], rs[|rs| - 1];
      SplitLast(rs);
      YearCount(done, parse, y);
      KeysSnoc(done, r, parse);
      FilterSnoc(rs, InYear(parse, y));
    }
  }

  function Totals(yoy: seq<YearRow>): (t: seq<nat>)
    ensures |t| == |yoy|
  {
    seq(|yoy|, i requires 0 <= i < |yoy| => yoy[i].total)
  }

  function Years(yoy: seq<YearRow>): (ys: seq<int>)
    ensures |ys| == |yoy|
  {
    seq(|yoy|, i requires 0 <= i < |yoy| => yoy[i].year)
  }

  /** The year totals add up to the number of valid mails, as the month
      values do. */
  lemma TotalsSum(rows: seq<Row>, parse: Parser)
    ensures Sum(Totals(Predicted(rows, parse).yearOverYear)) == |ValidMails(rows, parse)|
  {
    var yoy, v := YearOverYear(rows, parse), ValidMails(rows, parse);
    var ys := YearList(v, parse);
    ValidHaveDates(rows, parse);
    forall i | 0 <= i < |yoy| ensures Totals(yoy)[i] == multiset(ys)[Years(yoy)[i]] {
      YearRowContents(rows, parse, yoy[i]);
      YearCount(v, parse, yoy[i].year);
    }
    assert Totals(yoy) == Occurrences(Years(yoy), ys);
    YearsDistinct(rows, parse);
    forall x | x in ys ensures x in Years(yoy) {
      YearCovered(rows, parse, x);
    }
    SumOccurrencesSeq(Years(yoy), ys);
    SumOccurrencesTotal(Years(yoy), ys);
  }

  lemma YearsDistinct(rows: seq<Row>, parse: Parser)
    ensures Distinct(Years(YearOverYear(rows, parse)))
  {
    var yoy := YearOverYear(rows, parse);
    YearRowsOrdered(rows, parse);
    forall i, j | 0 <= i < j < |yoy| ensures Years(yoy)[i] != Years(yoy)[j] {
      assert YearKey(yoy[i]) < YearKey(yoy[j]);
    }
  }

  lemma YearCovered(rows: seq<Row>, parse: Parser, x: int)
    requires x in YearList(ValidMails(rows, parse), parse)
    ensures x in Years(YearOverYear(rows, parse))
  {
    var v := ValidMails(rows, parse);
    var yoy := YearOverYear(rows, parse);
    var j :| 0 <= j < |v| && YearList(v, parse)[j] == x;
    assert v[j] in v && StampOf(parse, v[j]).year == x;
    YearSeen(rows, parse, x);
    YearRowFor(rows, parse, x);
    var e := RowOfYear(rows, parse, x);
    var k :| 0 <= k < |yoy| && yoy[k] == e;
    assert Years(yoy)[k] == x;
  }

  /** The two views agree: the value of month `m` of year `y` on the time
      axis is slot `m` of the row of year `y`. */
  lemma ViewsAgree(rows: seq<Row>, parse: Parser, i: int, y: int, m: MonthIndex)
    requires 0 <= i < |SortedMonths(rows, parse)|
    requires SortedMonths(rows, parse)[i] == MonthKey(y, m)
    ensures RowOfYear(rows, parse, y) in Predicted(rows, parse).yearOverYear
    ensures RowOfYear(rows, parse, y).monthlyDistribution[m] == Predicted(rows, parse).values[i]
  {
    ValueOfMonth(rows, parse, i, y, m);
    MonthsListed(rows, parse, MonthKey(y, m));
    var r :| r in ValidMails(rows, parse) && KeyOf(parse, r) == MonthKey(y, m);
    MonthKeyInjective(StampOf(parse, r).year, StampOf(parse, r).month, y, m);
    YearSeen(rows, parse, y);
    YearRowFor(rows, parse, y);
  }

  /** Every label is the `YYYY-MM` key of a valid mail's month. */
  lemma LabelFormat(rows: seq<Row>, parse: Parser, i: int)
    requires 0 <= i < |Predicted(rows, parse).labels|
    ensures exists r :: r in ValidMails(rows, parse) &&
                        Predicted(rows, parse).labels[i] ==
                        IntToDec(StampOf(parse, r).year) + "-" + Pad2(StampOf(parse, r).month + 1)
  {
    LabelsAreKeys(rows, parse);
    MonthsListed(rows, parse, SortedMonths(rows, parse)[i]);
  }

  // Whole-result facts

  /** The forecast depends on the input only through its valid mails. */
  lemma SameValid(rows1: seq<Row>, rows2: seq<Row>, parse: Parser)
    requires ValidMails(rows1, parse) == ValidMails(rows2, parse)
    ensures Predicted(rows1, parse) == Predicted(rows2, parse)
  {
    assert Chronological(rows1, parse) == Chronological(rows2, parse);
    assert Monthly(rows1, parse) == Monthly(rows2, parse);
    assert SortedMonths(rows1, parse) == SortedMonths(rows2, parse);
    assert YearsSeen(rows1, parse) == YearsSeen(rows2, parse);
    forall y ensures Distribution(rows1, parse, y) == Distribution(rows2, parse, y) {
    }
    assert YearRows(rows1, parse) == YearRows(rows2, parse);
  }

  /** A mail whose date does not parse changes nothing. */
  lemma UndatedIgnored(rows: seq<Row>, r: Row, parse: Parser)
    requires !HasDate(parse, r)
    ensures Predicted(rows + [r], parse) == Predicted(rows, parse)
  {
    FilterSnoc(rows + [r], IsValid(parse));
    assert (rows + [r])[..|rows|] == rows;
    SameValid(rows + [r], rows, parse);
  }

  // Order of the input

  lemma SameValidMembers(rows1: seq<Row>, rows2: seq<Row>, parse: Parser, r: Row)
    requires multiset(ValidMails(rows1, parse)) == multiset(ValidMails(rows2, parse))
    ensures r in ValidMails(rows1, parse) <==> r in ValidMails(rows2, parse)
  {
    assert r in ValidMails(rows1, parse) <==> r in multiset(ValidMails(rows1, parse));
  }

  lemma DistributionPermutation(rows1: seq<Row>, rows2: seq<Row>, parse: Parser, y: int)
    requires multiset(ValidMails(rows1, parse)) == multiset(ValidMails(rows2, parse))
    ensures Distribution(rows1, parse, y) == Distribution(rows2, parse, y)
  {
    forall m | 0 <= m < 12 ensures Distribution(rows1, parse, y)[m] == Distribution(rows2, parse, y)[m] {
      MonthCountPermutation(ValidMails(rows1, parse), ValidMails(rows2, parse), parse, y, m);
    }
  }

  /** The months on the time axis do not depend on the order of the mails. */
  lemma MonthsPermutation(rows1: seq<Row>, rows2: seq<Row>, parse: Parser)
    requires multiset(ValidMails(rows1, parse)) == multiset(ValidMails(rows2, parse))
    ensures SortedMonths(rows1, parse) == SortedMonths(rows2, parse)
  {
    var a, b := SortedMonths(rows1, parse), SortedMonths(rows2, parse);
    MonthsAscending(rows1, parse);
    MonthsAscending(rows2, parse);
    MonthsDistinct(MonthKeys(Chronological(rows1, parse), parse));
    MonthsDistinct(MonthKeys(Chronological(rows2, parse), parse));
    forall x ensures x in a <==> x in b {
      MonthMoves(rows1, rows2, parse, x);
    }
    StrStrictlySortedSame(a, b);
  }

  lemma MonthMoves(rows1: seq<Row>, rows2: seq<Row>, parse: Parser, x: string)
    requires multiset(ValidMails(rows1, parse)) == multiset(ValidMails(rows2, parse))
    ensures x in SortedMonths(rows1, parse) <==> x in SortedMonths(rows2, parse)
  {
    forall r ensures r in ValidMails(rows1, parse) <==> r in ValidMails(rows2, parse) {
      SameValidMembers(rows1, rows2, parse, r);
    }
    MonthsListed(rows1, parse, x);
    MonthsListed(rows2, parse, x);
  }

  /** Nor do the values of those months. */
  lemma ValuesPermutation(rows1: seq<Row>, rows2: seq<Row>, parse: Parser)
    requires multiset(ValidMails(rows1, parse)) == multiset(ValidMails(rows2, parse))
    ensures Predicted(rows1, parse).values == Predicted(rows2, parse).values
  {
    MonthsPermutation(rows1, rows2, parse);
    var months := SortedMonths(rows1, parse);
    forall i | 0 <= i < |months| ensures Predicted(rows1, parse).values[i] == Predicted(rows2, parse).values[i] {
      MonthsListed(rows1, parse, months[i]);
      var r :| r in ValidMails(rows1, parse) && KeyOf(parse, r) == months[i];
      var y, m := StampOf(parse, r).year, StampOf(parse, r).month;
      ValueOfMonth(rows1, parse, i, y, m);
      ValueOfMonth(rows2, parse, i, y, m);
      MonthCountPermutation(ValidMails(rows1, parse), ValidMails(rows2, parse), parse, y, m);
    }
  }

  /** A row of one ordering is a row of the other. */
  lemma YearRowMoves(rows1: seq<Row>, rows2: seq<Row>, parse: Parser, e: YearRow)
    requires multiset(ValidMails(rows1, parse)) == multiset(ValidMails(rows2, parse))
    requires e in YearOverYear(rows1, parse)
    ensures e in YearOverYear(rows2, parse)
  {
    YearRowOf(rows1, parse, e);
    YearSeen(rows1, parse, e.year);
    YearSeen(rows2, parse, e.year);
    var r :| r in ValidMails(rows1, parse) && StampOf(parse, r).year == e.year;
    SameValidMembers(rows1, rows2, parse, r);
    YearRowFor(rows2, parse, e.year);
    DistributionPermutation(rows1, rows2, parse, e.year);
  }

  /** Nor do the year rows. */
  lemma YearsPermutation(rows1: seq<Row>, rows2: seq<Row>, parse: Parser)
    requires multiset(ValidMails(rows1, parse)) == multiset(ValidMails(rows2, parse))
    ensures YearOverYear(rows1, parse) == YearOverYear(rows2, parse)
  {
    var a, b := YearOverYear(rows1, parse), YearOverYear(rows2, parse);
    YearRowsOrdered(rows1, parse);
    YearRowsOrdered(rows2, parse);
    forall e ensures e in a <==> e in b {
      if e in a {
        YearRowMoves(rows1, rows2, parse, e);
      }
      if e in b {
        YearRowMoves(rows2, rows1, parse, e);
      }
    }
    StrictlySortedSame(a, b, YearKey);
  }

  /** The forecast does not depend on the order of the input mails. */
  lemma Reordered(rows1: seq<Row>, rows2: seq<Row>, parse: Parser)
    requires multiset(rows1) == multiset(rows2)
    ensures Predicted(rows1, parse) == Predicted(rows2, parse)
  {
    FilterPermutation(rows1, rows2, IsValid(parse));
    MonthsPermutation(rows1, rows2, parse);
    ValuesPermutation(rows1, rows2, parse);
    YearsPermutation(rows1, rows2, parse);
  }
}
