/** The counting pass over the records: per-category counts, internal and
    external mail, counts per sender, recipient, month name, weekday name and
    hour, and the ranking of the busiest senders and recipients. */
module Aggregation {
  import opened Seqs
  import opened Text
  import opened Ordering
  import opened Counter
  import opened Dates
  import opened Rows
  import opened Categorizer

  /** The `categories` object of the analysis. */
  datatype CategoryCounts = CategoryCounts(
    complaints: nat, inquiries: nat, feedback: nat, urgent: nat, internal: nat, external: nat)

  /** The counters filled by the pass, each count map in insertion order. */
  datatype Stats = Stats(
    categories: CategoryCounts,
    senders: seq<Entry>,
    recipients: seq<Entry>,
    months: seq<Entry>,
    weekdays: seq<Entry>,
    hours: seq<Entry>)

  const InternalDomain: string := "@internt.com"

  /** Both sender and recipient mention the internal domain. */
  predicate IsInternal(r: Row) {
    Contains(Sender(r), InternalDomain) && Contains(Recipient(r), InternalDomain)
  }

  predicate IsExternal(r: Row) {
    !IsInternal(r)
  }

  /** The tags of every record, record after record. */
  function AllTags(rows: seq<Row>): seq<Category> {
    if |rows| == 0 then []
    else
      var r := rows[|rows| - 1];
      AllTags(rows[..|rows| - 1]) + Categorize(Subject(r), Content(r))
  }

  function Senders(rows: seq<Row>): (ks: seq<string>)
    ensures |ks| == |rows|
  {
    seq(|rows|, i requires 0 <= i < |rows| => Sender(rows[i]))
  }

  function Recipients(rows: seq<Row>): (ks: seq<string>)
    ensures |ks| == |rows|
  {
    seq(|rows|, i requires 0 <= i < |rows| => Recipient(rows[i]))
  }

  function MonthsOf(rows: seq<Row>, parse: Parser): (ks: seq<string>)
    ensures |ks| == |rows|
  {
    seq(|rows|, i requires 0 <= i < |rows| => MonthLabel(parse(DateString(rows[i]))))
  }

  function WeekdaysOf(rows: seq<Row>, parse: Parser): (ks: seq<string>)
    ensures |ks| == |rows|
  {
    seq(|rows|, i requires 0 <= i < |rows| => WeekdayLabel(parse(DateString(rows[i]))))
  }

  function HoursOf(rows: seq<Row>, parse: Parser): (ks: seq<string>)
    ensures |ks| == |rows|
  {
    seq(|rows|, i requires 0 <= i < |rows| => HourKey(parse(DateString(rows[i]))))
  }

  /** What the pass computes, stated declaratively: each category counter is
      the number of tags of that category, each count map the tally of one
      field or date label over all records. */
  function Tallied(rows: seq<Row>, parse: Parser): Stats {
    Stats(
      CategoriesOf(rows),
      Tally(Senders(rows)),
      Tally(Recipients(rows)),
      Tally(MonthsOf(rows, parse)),
      Tally(WeekdaysOf(rows, parse)),
      Tally(HoursOf(rows, parse)))
  }

  /** The category counters over all records: each tag's multiplicity among
      the tags of all records, and the internal and external records. */
  function CategoriesOf(rows: seq<Row>): CategoryCounts {
    var tags := multiset(AllTags(rows));
    CategoryCounts(
      tags[Complaints], tags[Inquiries], tags[Feedback], tags[Urgent],
      |Filter(rows, IsInternal)|, |Filter(rows, IsExternal)|)
  }

  /** The `emails.forEach(...)` pass of `handleAnalyze`. */
  method Aggregate(rows: seq<Row>, parse: Parser) returns (st: Stats)
    ensures st == Tallied(rows, parse)
  {
    st := Stats(CategoryCounts(0, 0, 0, 0, 0, 0), [], [], [], [], []);
    var i := 0;
    while i < |rows|
      invariant 0 <= i <= |rows|
      invariant st == Tallied(rows[..i], parse)
    {
      TalliedStep(rows, parse, i);
      st := CountRecord(st, rows[i], parse);
      i := i + 1;
    }
    assert rows[..i] == rows;
  }

  /** The body of the pass for one record: the sender and recipient counts,
      the category tags, internal or external, then month, weekday and hour. */
  method CountRecord(st: Stats, r: Row, parse: Parser) returns (next: Stats)
    ensures next == Step(st, r, parse)
  {
    var date := parse(DateString(r));
    var senders := Bump(st.senders, Sender(r));
    var recipients := Bump(st.recipients, Recipient(r));
    var counts := CountTags(st.categories, Categorize(Subject(r), Content(r)));
    if IsInternal(r) {
      counts := counts.(internal := counts.internal + 1);
    } else {
      counts := counts.(external := counts.external + 1);
    }
    var months := Bump(st.months, MonthLabel(date));
    var weekdays := Bump(st.weekdays, WeekdayLabel(date));
    var hours := Bump(st.hours, HourKey(date));
    assert counts == StepCategories(st.categories, r);
    next := Stats(counts, senders, recipients, months, weekdays, hours);
  }

  /** `emailCategories.forEach(category => categories[category]++)`: each tag
      adds one to its counter. */
  method CountTags(counts: CategoryCounts, tags: seq<Category>) returns (r: CategoryCounts)
    ensures r == AddTags(counts, tags)
  {
    r := counts;
    var j := 0;
    while j < |tags|
      invariant 0 <= j <= |tags|
      invariant r == AddTags(counts, tags[..j])
    {
      assert tags[..j + 1] == tags[..j] + [tags[j]];
      match tags[j] {
        case Complaints => r := r.(complaints := r.complaints + 1);
        case Inquiries => r := r.(inquiries := r.inquiries + 1);
        case Feedback => r := r.(feedback := r.feedback + 1);
        case Urgent => r := r.(urgent := r.urgent + 1);
      }
      j := j + 1;
    }
    assert tags[..j] == tags;
  }

  /** The category counters after adding the tags' multiplicities. */
  function AddTags(counts: CategoryCounts, tags: seq<Category>): CategoryCounts {
    var m := multiset(tags);
    counts.(complaints := counts.complaints + m[Complaints],
            inquiries := counts.inquiries + m[Inquiries],
            feedback := counts.feedback + m[Feedback],
            urgent := counts.urgent + m[Urgent])
  }

  /** What one record adds to the category counters. */
  function StepCategories(categories: CategoryCounts, r: Row): CategoryCounts {
    var counts := AddTags(categories, Categorize(Subject(r), Content(r)));
    if IsInternal(r) then counts.(internal := counts.internal + 1)
    else counts.(external := counts.external + 1)
  }

  /** What one record adds to the counters. */
  function Step(st: Stats, r: Row, parse: Parser): Stats {
    var date := parse(DateString(r));
    Stats(
      StepCategories(st.categories, r),
      Bump(st.senders, Sender(r)),
      Bump(st.recipients, Recipient(r)),
      Bump(st.months, MonthLabel(date)),
      Bump(st.weekdays, WeekdayLabel(date)),
      Bump(st.hours, HourKey(date)))
  }

  /** Counting one more record is one `Step`. */
  lemma TalliedStep(rows: seq<Row>, parse: Parser, i: int)
    requires 0 <= i < |rows|
    ensures Tallied(rows[..i + 1], parse) == Step(Tallied(rows[..i], parse), rows[i], parse)
  {
    var q := rows[..i + 1];
    assert q[..i] == rows[..i];
    var now, before := Tallied(q, parse), Tallied(rows[..i], parse);
    var next := Step(before, rows[i], parse);
    KeysSnoc(q, parse);
    TallySnoc(Senders(rows[..i]), Sender(rows[i]));
    TallySnoc(Recipients(rows[..i]), Recipient(rows[i]));
    TallySnoc(MonthsOf(rows[..i], parse), MonthLabel(parse(DateString(rows[i]))));
    TallySnoc(WeekdaysOf(rows[..i], parse), WeekdayLabel(parse(DateString(rows[i]))));
    TallySnoc(HoursOf(rows[..i], parse), HourKey(parse(DateString(rows[i]))));
    CategoriesStep(q);
    assert next.categories == StepCategories(before.categories, rows[i]);
    assert now.categories == next.categories;
    assert now.senders == next.senders;
    assert now.recipients == next.recipients;
    assert now.months == next.months;
    assert now.weekdays == next.weekdays;
    assert now.hours == next.hours;
  }

  /** Counting one more record adds its tags and its internal or external
      mark to the category counters. */
  lemma CategoriesStep(rows: seq<Row>)
    requires |rows| > 0
    ensures CategoriesOf(rows) == StepCategories(CategoriesOf(rows[..|rows| - 1]), rows[|rows| - 1])
  {
    var p, r := rows[..|rows| - 1], rows[|rows| - 1];
    var tags := Categorize(Subject(r), Content(r));
    var before := CategoriesOf(p);
    var added := AddTags(before, tags);
    var now := CategoriesOf(rows);
    AllTagsSnoc(rows);
    FilterSnoc(rows, IsInternal);
    FilterSnoc(rows, IsExternal);
    assert now.complaints == added.complaints && now.inquiries == added.inquiries;
    assert now.feedback == added.feedback && now.urgent == added.urgent;
    assert now.internal == before.internal + (if IsInternal(r) then 1 else 0);
    assert now.external == before.external + (if IsInternal(r) then 0 else 1);
  }

  lemma AllTagsSnoc(rows: seq<Row>)
    requires |rows| > 0
    ensures var r := rows[|rows| - 1];
      multiset(AllTags(rows)) == multiset(AllTags(rows[..|rows| - 1])) + multiset(Categorize(Subject(r), Content(r)))
  {
  }

  /** Each key list of a non-empty table is that of its front plus one key. */
  lemma KeysSnoc(rows: seq<Row>, parse: Parser)
    requires |rows| > 0
    ensures var p, r := rows[..|rows| - 1], rows[|rows| - 1];
      && Senders(rows) == Senders(p) + [Sender(r)]
      && Recipients(rows) == Recipients(p) + [Recipient(r)]
      && MonthsOf(rows, parse) == MonthsOf(p, parse) + [MonthLabel(parse(DateString(r)))]
      && WeekdaysOf(rows, parse) == WeekdaysOf(p, parse) + [WeekdayLabel(parse(DateString(r)))]
      && HoursOf(rows, parse) == HoursOf(p, parse) + [HourKey(parse(DateString(r)))]
  {
  }

  /** Every record is counted either as internal or as external. */
  lemma InternalPlusExternal(rows: seq<Row>, parse: Parser)
    ensures Tallied(rows, parse).categories.internal + Tallied(rows, parse).categories.external == |rows|
  {
    FilterPartition(rows, IsInternal, IsExternal);
    assert |multiset(Filter(rows, IsInternal)) + multiset(Filter(rows, IsExternal))| == |multiset(rows)|;
  }

  /** The number of records carrying tag `c`. */
  function TaggedCount(rows: seq<Row>, c: Category): nat {
    if |rows| == 0 then 0
    else
      var r := rows[|rows| - 1];
      TaggedCount(rows[..|rows| - 1], c) + (if c in Categorize(Subject(r), Content(r)) then 1 else 0)
  }

  /** A category counter counts e-mails: each record adds at most one to it,
      so it is the number of records with that tag and never exceeds the
      number of records. */
  lemma {:induction false} TagCountIsMailCount(rows: seq<Row>, c: Category)
    ensures multiset(AllTags(rows))[c] == TaggedCount(rows, c)
    ensures TaggedCount(rows, c) <= |rows|
  {
    if |rows| > 0 {
      var r := rows[|rows| - 1];
      TagCountIsMailCount(rows[..|rows| - 1], c);
      CategorizeOnce(Subject(r), Content(r), c);
    }
  }

  /** Each count map counts every record once: its counts add up to the
      number of records, and each count is the number of records with that
      key. */
  lemma TalliedTotals(rows: seq<Row>, parse: Parser)
    ensures var st := Tallied(rows, parse);
      && Total(st.senders) == |rows| && Total(st.recipients) == |rows|
      && Total(st.months) == |rows| && Total(st.weekdays) == |rows| && Total(st.hours) == |rows|
  {
    TallyTotal(Senders(rows));
    TallyTotal(Recipients(rows));
    TallyTotal(MonthsOf(rows, parse));
    TallyTotal(WeekdaysOf(rows, parse));
    TallyTotal(HoursOf(rows, parse));
  }

  /** The sender count of `s` is the number of records sent by `s`. */
  lemma SenderCount(rows: seq<Row>, parse: Parser, s: string)
    ensures Lookup(Tallied(rows, parse).senders, s) == |Filter(rows, SentBy(s))|
  {
    LookupTally(Senders(rows), s);
    CountMatches(rows, s);
  }

  lemma SendersSnoc(rows: seq<Row>)
    requires |rows| > 0
    ensures Senders(rows) == Senders(rows[..|rows| - 1]) + [Sender(rows[|rows| - 1])]
  {
  }

  function SentBy(s: string): Row -> bool {
    (r: Row) => Sender(r) == s
  }

  lemma {:induction false} CountMatches(rows: seq<Row>, s: string)
    ensures multiset(Senders(rows))[s] == |Filter(rows, SentBy(s))|
  {
    if |rows| > 0 {
      var p := rows[..|rows| - 1];
      CountMatches(p, s);
      SendersSnoc(rows);
      FilterSnoc(rows, SentBy(s));
    }
  }

  /** At most thirteen month keys (twelve names and "Invalid Date"), eight
      weekday keys and twenty-five hour keys ("0" to "23" and "NaN"). */
  lemma TimeKeyBounds(rows: seq<Row>, parse: Parser)
    ensures |Tallied(rows, parse).months| <= 13
    ensures |Tallied(rows, parse).weekdays| <= 8
    ensures |Tallied(rows, parse).hours| <= 25
  {
    MonthKeyBound(rows, parse);
    WeekdayKeyBound(rows, parse);
    HourKeyBound(rows, parse);
  }

  lemma MonthKeyBound(rows: seq<Row>, parse: Parser)
    ensures |Tally(MonthsOf(rows, parse))| <= 13
  {
    var ks := MonthsOf(rows, parse);
    MonthLabelsSize();
    forall i | 0 <= i < |ks| ensures ks[i] in MonthLabels {
      assert ks[i] == MonthLabel(parse(DateString(rows[i])));
    }
    TallyWithin(ks, MonthLabels);
  }

  lemma WeekdayKeyBound(rows: seq<Row>, parse: Parser)
    ensures |Tally(WeekdaysOf(rows, parse))| <= 8
  {
    var ks := WeekdaysOf(rows, parse);
    WeekdayLabelsSize();
    forall i | 0 <= i < |ks| ensures ks[i] in WeekdayLabels {
      assert ks[i] == WeekdayLabel(parse(DateString(rows[i])));
    }
    TallyWithin(ks, WeekdayLabels);
  }

  lemma HourKeyBound(rows: seq<Row>, parse: Parser)
    ensures |Tally(HoursOf(rows, parse))| <= 25
  {
    var ks := HoursOf(rows, parse);
    HourKeysSize();
    forall i | 0 <= i < |ks| ensures ks[i] in HourKeys {
      assert ks[i] == HourKey(parse(DateString(rows[i])));
    }
    TallyWithin(ks, HourKeys);
  }

  /** A sender is listed in the ranking unless it is the placeholder
      "Okänd avsändare", has at most two characters, or carries the text of
      a disclaimer or of a mobile signature. */
  predicate Listed(e: Entry) {
    && e.key != "Okänd avsändare"
    && |e.key| > 2
    && !Contains(e.key, "ATTENTION")
    && !Contains(e.key, "Skickat från")
  }

  /** `topSenders`: the ten busiest listed senders. */
  function TopSenders(st: Stats): seq<Entry> {
    TopTen(Filter(ObjectEntries(st.senders), Listed))
  }

  /** `topRecipients`: the ten busiest recipients. */
  function TopRecipients(st: Stats): seq<Entry> {
    TopTen(ObjectEntries(st.recipients))
  }

  /** The sender ranking: at most ten senders, from the busiest down, each
      listed and with the number of records it sent. */
  lemma TopSendersCounts(rows: seq<Row>, parse: Parser)
    ensures var top := TopSenders(Tallied(rows, parse));
      && |top| <= 10
      && (forall i, j :: 0 <= i < j < |top| ==> top[i].count >= top[j].count)
      && (forall i :: 0 <= i < |top| ==> Listed(top[i]) && top[i].count == multiset(Senders(rows))[top[i].key])
  {
    var c := Tally(Senders(rows));
    TalliedFields(rows, parse);
    assert TopSenders(Tallied(rows, parse)) == TopTen(Filter(ObjectEntries(c), Listed));
    TopSendersEntries(c, Senders(rows));
  }

  /** The count maps of the pass are the tallies of the record fields. */
  lemma TalliedFields(rows: seq<Row>, parse: Parser)
    ensures Tallied(rows, parse).senders == Tally(Senders(rows))
    ensures Tallied(rows, parse).recipients == Tally(Recipients(rows))
  {
  }

  lemma TopSendersEntries(c: seq<Entry>, ks: seq<string>)
    requires c == Tally(ks)
    ensures var top := TopTen(Filter(ObjectEntries(c), Listed));
      && |top| <= 10
      && (forall i, j :: 0 <= i < j < |top| ==> top[i].count >= top[j].count)
      && (forall i :: 0 <= i < |top| ==> Listed(top[i]) && top[i].count == multiset(ks)[top[i].key])
  {
    var listed := Filter(ObjectEntries(c), Listed);
    var top := TopTen(listed);
    TopTenDescending(listed);
    assert forall i, j :: 0 <= i < j < |top| ==> top[i].count >= top[j].count;
    TopSendersKept(c, ks, listed, top);
  }

  lemma TopSendersKept(c: seq<Entry>, ks: seq<string>, listed: seq<Entry>, top: seq<Entry>)
    requires c == Tally(ks) && listed == Filter(ObjectEntries(c), Listed) && top == TopTen(listed)
    ensures forall i :: 0 <= i < |top| ==> Listed(top[i]) && top[i].count == multiset(ks)[top[i].key]
  {
    TopTenKept(listed);
    ListedEntries(c, ks);
    forall i | 0 <= i < |top| ensures Listed(top[i]) && top[i].count == multiset(ks)[top[i].key] {
      assert top[i] in listed;
    }
  }

  /** Every listed entry of the sender map is listed and counts its key. */
  lemma ListedEntries(c: seq<Entry>, ks: seq<string>)
    requires c == Tally(ks)
    ensures forall e :: e in Filter(ObjectEntries(c), Listed) ==> Listed(e) && e.count == multiset(ks)[e.key]
  {
    TallyCounts(ks);
    forall e | e in Filter(ObjectEntries(c), Listed) ensures Listed(e) && e.count == multiset(ks)[e.key] {
      EntryOfObject(c, Filter(ObjectEntries(c), Listed), e);
      CountsEntry(c, ks, e);
    }
  }

  lemma EntryOfObject(c: seq<Entry>, listed: seq<Entry>, e: Entry)
    requires listed == Filter(ObjectEntries(c), Listed) && e in listed
    ensures e in c && Listed(e)
  {
    assert e in multiset(ObjectEntries(c));
  }

  /** A listed sender left out of the ranking sent no more mail than the
      last sender kept, and then ten senders are kept. */
  lemma TopSendersComplete(rows: seq<Row>, parse: Parser, e: Entry)
    requires e in Tallied(rows, parse).senders && Listed(e)
    requires e !in TopSenders(Tallied(rows, parse))
    ensures |TopSenders(Tallied(rows, parse))| == 10
    ensures e.count <= TopSenders(Tallied(rows, parse))[9].count
  {
    var c := Tally(Senders(rows));
    var listed := Filter(ObjectEntries(c), Listed);
    TopTenSelects(listed);
    assert e in multiset(ObjectEntries(c));
    assert e in listed;
  }

  /** The recipient ranking: at most ten recipients (fewer only when there
      are fewer), from the busiest down, each with the number of records
      addressed to it. */
  lemma TopRecipientsCounts(rows: seq<Row>, parse: Parser)
    ensures var top := TopRecipients(Tallied(rows, parse));
      && |top| == (if |Dedup(Recipients(rows))| < 10 then |Dedup(Recipients(rows))| else 10)
      && (forall i, j :: 0 <= i < j < |top| ==> top[i].count >= top[j].count)
      && (forall i :: 0 <= i < |top| ==> top[i].count == multiset(Recipients(rows))[top[i].key])
  {
    var c := Tally(Recipients(rows));
    var oe := ObjectEntries(c);
    var top := TopTen(oe);
    TopTenLength(oe);
    TopTenDescending(oe);
    TopTenKept(oe);
    TallyCounts(Recipients(rows));
    assert |KeysOf(c)| == |c|;
    forall i | 0 <= i < |top| ensures top[i].count == multiset(Recipients(rows))[top[i].key] {
      assert top[i] in multiset(oe);
      CountsEntry(c, Recipients(rows), top[i]);
    }
  }

  /** A recipient left out of the ranking received no more mail than the
      last recipient kept, and then ten recipients are kept. */
  lemma TopRecipientsComplete(rows: seq<Row>, parse: Parser, e: Entry)
    requires e in Tallied(rows, parse).recipients
    requires e !in TopRecipients(Tallied(rows, parse))
    ensures |TopRecipients(Tallied(rows, parse))| == 10
    ensures e.count <= TopRecipients(Tallied(rows, parse))[9].count
  {
    var oe := ObjectEntries(Tally(Recipients(rows)));
    TopTenSelects(oe);
    assert e in multiset(oe);
  }

  /** Ties in the sender ranking: among senders with equal counts, the kept
      ones are a prefix of the listed entries in `Object.entries` order, so a
      numeric sender key goes ahead of senders seen before it
      (`Counter.NumericKeyFirst`). */
  lemma TopSendersTies(rows: seq<Row>, parse: Parser, k: int)
    ensures WithKey(TopSenders(Tallied(rows, parse)), Rank, k)
      <= WithKey(Filter(ObjectEntries(Tally(Senders(rows))), Listed), Rank, k)
  {
    TalliedFields(rows, parse);
    TopTenTies(Filter(ObjectEntries(Tally(Senders(rows))), Listed), k);
  }

  /** With no numeric sender, senders with equal counts are ranked in the
      order they first appear in the file. */
  lemma TopSendersTiesFirstSeen(rows: seq<Row>, parse: Parser, k: int)
    requires forall i :: 0 <= i < |rows| ==> !IsArrayIndex(Sender(rows[i]))
    ensures KeysOf(Tally(Senders(rows))) == Dedup(Senders(rows))
    ensures WithKey(TopSenders(Tallied(rows, parse)), Rank, k)
      <= WithKey(Filter(Tally(Senders(rows)), Listed), Rank, k)
  {
    TallyCounts(Senders(rows));
    TallyNamed(Senders(rows));
    ObjectEntriesNamed(Tally(Senders(rows)));
    TopSendersTies(rows, parse, k);
  }

  /** Ties in the recipient ranking: among recipients with equal counts, the
      kept ones are a prefix of the `Object.entries` order. */
  lemma TopRecipientsTies(rows: seq<Row>, parse: Parser, k: int)
    ensures WithKey(TopRecipients(Tallied(rows, parse)), Rank, k)
      <= WithKey(ObjectEntries(Tally(Recipients(rows))), Rank, k)
  {
    TalliedFields(rows, parse);
    TopTenTies(ObjectEntries(Tally(Recipients(rows))), k);
  }

  /** With no numeric recipient, recipients with equal counts are ranked in
      the order they first appear in the file. */
  lemma TopRecipientsTiesFirstSeen(rows: seq<Row>, parse: Parser, k: int)
    requires forall i :: 0 <= i < |rows| ==> !IsArrayIndex(Recipient(rows[i]))
    ensures KeysOf(Tally(Recipients(rows))) == Dedup(Recipients(rows))
    ensures WithKey(TopRecipients(Tallied(rows, parse)), Rank, k)
      <= WithKey(Tally(Recipients(rows)), Rank, k)
  {
    TallyCounts(Recipients(rows));
    TallyNamed(Recipients(rows));
    ObjectEntriesNamed(Tally(Recipients(rows)));
    TopRecipientsTies(rows, parse, k);
  }
}
