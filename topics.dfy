/** Topic analysis of the mails: the two-word phrases of the lower-cased
    subjects, counted in a `Map` and ranked, and three fixed topics, each
    counting the mails that mention one of its words. */
module Topics {
  import opened Seqs
  import opened Text
  import opened Ordering
  import opened Counter
  import opened Rows

  /** `email[2].toLowerCase().split(' ')`: the words of the subject, cut at
      every single space. */
  function Words(r: Row): (words: seq<string>)
    ensures |words| >= 1
    ensures forall i :: 0 <= i < |words| ==> ' ' !in words[i] && IsLower(words[i])
  {
    LowerIsLower(Subject(r));
    SplitLower(Lower(Subject(r)), ' ');
    Split(Lower(Subject(r)), ' ')
  }

  /** `words.slice(i, i + 2).join(' ')` */
  function Phrase(a: string, b: string): string {
    a + " " + b
  }

  /** The phrases of one subject: every two neighbouring words. */
  function Bigrams(words: seq<string>): (ps: seq<string>)
    ensures |ps| == if |words| == 0 then 0 else |words| - 1
  {
    if |words| < 2 then []
    else seq(|words| - 1, i requires 0 <= i < |words| - 1 => Phrase(words[i], words[i + 1]))
  }

  /** The phrases of all subjects, mail after mail. */
  function AllPhrases(rows: seq<Row>): seq<string> {
    if |rows| == 0 then []
    else AllPhrases(rows[..|rows| - 1]) + Bigrams(Words(rows[|rows| - 1]))
  }

  /** `subjectPhrases`: the count of every phrase, in order of first use. */
  function PhraseCounts(rows: seq<Row>): seq<Entry> {
    Tally(AllPhrases(rows))
  }

  /** `commonSubjects`: the ten most used phrases. */
  function CommonSubjects(rows: seq<Row>): seq<Entry> {
    TopTen(PhraseCounts(rows))
  }

  datatype Topic = Invoicing | Meetings | Support

  /** The name a topic is reported under. */
  function Name(t: Topic): string {
    match t
    case Invoicing => "Fakturering"
    case Meetings => "Möten"
    case Support => "Support"
  }

  /** The keyword set a topic is created with. */
  function Keywords(t: Topic): seq<string> {
    match t
    case Invoicing => ["faktura", "betalning", "kostnad"]
    case Meetings => ["möte", "agenda", "kalendern"]
    case Support => ["support", "hjälp", "problem"]
  }

  /** The test that files a mail under a topic. Only one word of each
      keyword set is looked for, and for support the content and the subject
      are searched for different words. */
  predicate Mentions(t: Topic, r: Row) {
    var subject := Lower(Subject(r));
    var content := Lower(Content(r));
    match t
    case Invoicing => Contains(content, "faktura") || Contains(subject, "faktura")
    case Meetings => Contains(content, "möte") || Contains(subject, "möte")
    case Support => Contains(content, "support") || Contains(subject, "hjälp")
  }

  function MentionsTopic(t: Topic): Row -> bool {
    (r: Row) => Mentions(t, r)
  }

  /** One entry of `topics`, and one element of `topicClusters`. */
  datatype Cluster = Cluster(topic: Topic, keywords: seq<string>, count: nat)

  /** The position of the cluster of `t`, or -1 when there is none. */
  function FindTopic(cs: seq<Cluster>, t: Topic): (j: int)
    ensures -1 <= j < |cs|
    ensures 0 <= j ==> cs[j].topic == t
    ensures forall i :: 0 <= i < |cs| && (j < 0 || i < j) ==> cs[i].topic != t
  {
    if |cs| == 0 then -1
    else if cs[0].topic == t then 0
    else
      var j := FindTopic(cs[1..], t);
      assert forall i :: 0 < i < |cs| ==> cs[i] == cs[1..][i - 1];
      if j < 0 then -1 else j + 1
  }

  /** Filing one mail under `t`: a topic seen for the first time is appended
      with its keyword set and count 0, then its count goes up by one in
      place. */
  function Touch(cs: seq<Cluster>, t: Topic): (r: seq<Cluster>)
    ensures |r| == |cs| || |r| == |cs| + 1
    ensures forall i :: 0 <= i < |cs| ==> r[i].topic == cs[i].topic && r[i].keywords == cs[i].keywords
    ensures |r| == |cs| + 1 ==> r[|cs|] == Cluster(t, Keywords(t), 1)
  {
    var j := FindTopic(cs, t);
    if j < 0 then cs + [Cluster(t, Keywords(t), 1)]
    else cs[j := cs[j].(count := cs[j].count + 1)]
  }

  /** The topic tests for one mail, in their order in the code. */
  function FileMail(cs: seq<Cluster>, r: Row): seq<Cluster> {
    FileUnder(cs, Mentions(Invoicing, r), Mentions(Meetings, r), Mentions(Support, r))
  }

  /** Filing under each topic whose test passed, in the order invoicing,
      meetings, support. */
  function FileUnder(cs: seq<Cluster>, invoicing: bool, meetings: bool, support: bool): seq<Cluster> {
    TouchIf(TouchIf(TouchIf(cs, Invoicing, invoicing), Meetings, meetings), Support, support)
  }

  /** `if (test) { ... topics.get(topic)!.count++ }` */
  function TouchIf(cs: seq<Cluster>, t: Topic, test: bool): seq<Cluster> {
    if test then Touch(cs, t) else cs
  }

  /** `topics` after the second pass. */
  function Clustered(rows: seq<Row>): seq<Cluster> {
    if |rows| == 0 then [] else FileMail(Clustered(rows[..|rows| - 1]), rows[|rows| - 1])
  }

  /** The key of `(a, b) => b.count - a.count`. */
  function ClusterRank(c: Cluster): int {
    -(c.count as int)
  }

  /** `topicClusters`: the topics from the most used down. */
  function TopicClusters(rows: seq<Row>): seq<Cluster> {
    SortBy(Clustered(rows), ClusterRank)
  }

  /** `analyzeTopics`: a pass counting the phrases of every subject, a pass
      filing every mail under its topics, then the two rankings. */
  method AnalyzeTopics(rows: seq<Row>) returns (commonSubjects: seq<Entry>, topicClusters: seq<Cluster>)
    ensures commonSubjects == CommonSubjects(rows)
    ensures topicClusters == TopicClusters(rows)
  {
    var phrases := CountPhrases(rows);
    var topics := ClusterMails(rows);
    commonSubjects := TopTen(phrases);
    topicClusters := SortBy(topics, ClusterRank);
  }

  /** The first pass: `subjectPhrases` filled mail by mail. */
  method CountPhrases(rows: seq<Row>) returns (phrases: seq<Entry>)
    ensures phrases == PhraseCounts(rows)
  {
    phrases := [];
    var k := 0;
    while k < |rows|
      invariant 0 <= k <= |rows|
      invariant phrases == Tally(AllPhrases(rows[..k]))
    {
      PhrasesStep(rows, k);
      TallyAppend(AllPhrases(rows[..k]), Bigrams(Words(rows[k])));
      phrases := CountBigrams(phrases, Words(rows[k]));
      k := k + 1;
    }
    assert rows[..k] == rows;
  }

  /** The inner loop: every two neighbouring words counted as a phrase. */
  method CountBigrams(phrases: seq<Entry>, words: seq<string>) returns (r: seq<Entry>)
    ensures r == BumpAll(phrases, Bigrams(words))
  {
    r := phrases;
    var i := 0;
    while i < |words| - 1
      invariant 0 <= i <= if |words| == 0 then 0 else |words| - 1
      invariant r == BumpAll(phrases, Bigrams(words)[..i])
    {
      assert Bigrams(words)[..i + 1][..i] == Bigrams(words)[..i];
      r := Bump(r, words[i] + " " + words[i + 1]);
      i := i + 1;
    }
    assert Bigrams(words)[..i] == Bigrams(words);
  }

  /** The second pass: `topics` filled mail by mail. */
  method ClusterMails(rows: seq<Row>) returns (topics: seq<Cluster>)
    ensures topics == Clustered(rows)
  {
    topics := [];
    var k := 0;
    while k < |rows|
      invariant 0 <= k <= |rows|
      invariant topics == Clustered(rows[..k])
    {
      assert rows[..k + 1][..k] == rows[..k];
      topics := FileUnderTopics(topics, rows[k]);
      k := k + 1;
    }
    assert rows[..k] == rows;
  }

  /** The three topic tests for one mail. */
  method FileUnderTopics(topics: seq<Cluster>, r: Row) returns (next: seq<Cluster>)
    ensures next == FileMail(topics, r)
  {
    var subject := Lower(Subject(r));
    var content := Lower(Content(r));
    next := topics;
    if Contains(content, "faktura") || Contains(subject, "faktura") {
      next := Touch(next, Invoicing);
    }
    if Contains(content, "möte") || Contains(subject, "möte") {
      next := Touch(next, Meetings);
    }
    if Contains(content, "support") || Contains(subject, "hjälp") {
      next := Touch(next, Support);
    }
  }

  lemma PhrasesStep(rows: seq<Row>, k: int)
    requires 0 <= k < |rows|
    ensures AllPhrases(rows[..k + 1]) == AllPhrases(rows[..k]) + Bigrams(Words(rows[k]))
  {
    assert rows[..k + 1][..k] == rows[..k];
  }

  /** The number of mails filed under `t`. */
  function MailsMentioning(rows: seq<Row>, t: Topic): nat {
    |Filter(rows, MentionsTopic(t))|
  }

  /** The names of the topics one mail is filed under, in filing order. */
  function TopicNames(r: Row): seq<string> {
    NamesUnder(Mentions(Invoicing, r), Mentions(Meetings, r), Mentions(Support, r))
  }

  function NamesUnder(invoicing: bool, meetings: bool, support: bool): seq<string> {
    NameIf(Invoicing, invoicing) + NameIf(Meetings, meetings) + NameIf(Support, support)
  }

  function NameIf(t: Topic, test: bool): seq<string> {
    if test then [Name(t)] else []
  }

  function AllTopicNames(rows: seq<Row>): seq<string> {
    if |rows| == 0 then [] else AllTopicNames(rows[..|rows| - 1]) + TopicNames(rows[|rows| - 1])
  }

  /** A cluster list read as a count map from topic name to count. */
  function Summary(cs: seq<Cluster>): (c: seq<Entry>)
    ensures |c| == |cs|
  {
    seq(|cs|, i requires 0 <= i < |cs| => Entry(Name(cs[i].topic), cs[i].count))
  }

  lemma NameInjective(a: Topic, b: Topic)
    ensures Name(a) == Name(b) <==> a == b
  {
  }

  /** Filing under `t` counts the name of `t` once. */
  lemma TouchSummary(cs: seq<Cluster>, t: Topic)
    ensures Summary(Touch(cs, t)) == Bump(Summary(cs), Name(t))
  {
    var sm, n := Summary(cs), Name(t);
    var j := FindTopic(cs, t);
    FindSame(cs, t);
    if j < 0 {
      assert Bump(sm, n) == sm + [Entry(n, 1)];
      SummarySnoc(cs, Cluster(t, Keywords(t), 1));
    } else {
      assert Bump(sm, n) == sm[j := Entry(n, sm[j].count + 1)];
      assert sm[j].count == cs[j].count;
      SummaryUpdate(cs, j, cs[j].(count := cs[j].count + 1));
    }
  }

  /** The cluster of `t` sits where the summary has the name of `t`. */
  lemma FindSame(cs: seq<Cluster>, t: Topic)
    ensures FindKey(Summary(cs), Name(t)) == FindTopic(cs, t)
  {
    var sm, n := Summary(cs), Name(t);
    var j, k := FindTopic(cs, t), FindKey(sm, n);
    forall i | 0 <= i < |cs| ensures (sm[i].key == n) == (cs[i].topic == t) {
      NameInjective(cs[i].topic, t);
    }
    if j < 0 {
      assert k < 0;
    } else {
      assert k == j;
    }
  }

  lemma SummarySnoc(cs: seq<Cluster>, c: Cluster)
    ensures Summary(cs + [c]) == Summary(cs) + [Entry(Name(c.topic), c.count)]
  {
  }

  lemma SummaryUpdate(cs: seq<Cluster>, j: int, c: Cluster)
    requires 0 <= j < |cs|
    ensures Summary(cs[j := c]) == Summary(cs)[j := Entry(Name(c.topic), c.count)]
  {
  }

  lemma TouchIfStep(cs: seq<Cluster>, ks: seq<string>, t: Topic, test: bool)
    requires Summary(cs) == Tally(ks)
    ensures Summary(TouchIf(cs, t, test)) == Tally(ks + NameIf(t, test))
  {
    if test {
      TouchSummary(cs, t);
      TallySnoc(ks, Name(t));
    } else {
      assert ks + [] == ks;
    }
  }

  /** The topics of one mail are counted by name. */
  lemma FileUnderSummary(cs: seq<Cluster>, ks: seq<string>, invoicing: bool, meetings: bool, support: bool)
    requires Summary(cs) == Tally(ks)
    ensures Summary(FileUnder(cs, invoicing, meetings, support)) == Tally(ks + NamesUnder(invoicing, meetings, support))
  {
    var n1, n2, n3 := NameIf(Invoicing, invoicing), NameIf(Meetings, meetings), NameIf(Support, support);
    var a := TouchIf(cs, Invoicing, invoicing);
    var b := TouchIf(a, Meetings, meetings);
    TouchIfStep(cs, ks, Invoicing, invoicing);
    TouchIfStep(a, ks + n1, Meetings, meetings);
    TouchIfStep(b, ks + n1 + n2, Support, support);
    AppendThree(ks, n1, n2, n3);
  }

  /** The topic list, read as a count map, is the tally of the topic names
      of all mails. */
  lemma {:induction false} ClusteredSummary(rows: seq<Row>)
    ensures Summary(Clustered(rows)) == Tally(AllTopicNames(rows))
  {
    if |rows| > 0 {
      ClusteredSummary(rows[..|rows| - 1]);
      var r := rows[|rows| - 1];
      FileUnderSummary(Clustered(rows[..|rows| - 1]), AllTopicNames(rows[..|rows| - 1]),
        Mentions(Invoicing, r), Mentions(Meetings, r), Mentions(Support, r));
    }
  }

  /** Each topic's name occurs once for every mail filed under it. */
  lemma {:induction false} TopicNameCount(rows: seq<Row>, t: Topic)
    ensures multiset(AllTopicNames(rows))[Name(t)] == MailsMentioning(rows, t)
  {
    if |rows| > 0 {
      var r := rows[|rows| - 1];
      TopicNameCount(rows[..|rows| - 1], t);
      FilterSnoc(rows, MentionsTopic(t));
      TopicNamesOnce(r, t);
    }
  }

  lemma TopicNamesOnce(r: Row, t: Topic)
    ensures multiset(TopicNames(r))[Name(t)] == if Mentions(t, r) then 1 else 0
  {
    NameInjective(t, Invoicing);
    NameInjective(t, Meetings);
    NameInjective(t, Support);
  }

  /** Every cluster keeps the keyword set its topic was created with. */
  predicate KeywordsFixed(cs: seq<Cluster>) {
    forall i :: 0 <= i < |cs| ==> cs[i].keywords == Keywords(cs[i].topic)
  }

  lemma {:induction false} ClusteredKeywords(rows: seq<Row>)
    ensures KeywordsFixed(Clustered(rows))
  {
    if |rows| > 0 {
      var r := rows[|rows| - 1];
      ClusteredKeywords(rows[..|rows| - 1]);
      FileUnderKeywords(Clustered(rows[..|rows| - 1]), Mentions(Invoicing, r), Mentions(Meetings, r), Mentions(Support, r));
    }
  }

  lemma FileUnderKeywords(cs: seq<Cluster>, invoicing: bool, meetings: bool, support: bool)
    requires KeywordsFixed(cs)
    ensures KeywordsFixed(FileUnder(cs, invoicing, meetings, support))
  {
    var a := TouchIf(cs, Invoicing, invoicing);
    var b := TouchIf(a, Meetings, meetings);
    TouchKeywords(cs, Invoicing, invoicing);
    TouchKeywords(a, Meetings, meetings);
    TouchKeywords(b, Support, support);
  }

  lemma TouchKeywords(cs: seq<Cluster>, t: Topic, test: bool)
    requires KeywordsFixed(cs)
    ensures KeywordsFixed(TouchIf(cs, t, test))
  {
    if test {
      var r := Touch(cs, t);
      forall i | 0 <= i < |r| ensures r[i].keywords == Keywords(r[i].topic) {
        if i < |cs| {
          assert r[i].topic == cs[i].topic && r[i].keywords == cs[i].keywords;
        }
      }
    }
  }

  /** The index of a topic in the order of the tests. */
  function TopicIndex(c: Cluster): int {
    match c.topic
    case Invoicing => 0
    case Meetings => 1
    case Support => 2
  }

  const TopicNameSet: set<string> := {Name(Invoicing), Name(Meetings), Name(Support)}

  /** A cluster list read as the tally of `names`: each cluster counts its
      topic's name, at least once. */
  lemma SummaryCounts(cs: seq<Cluster>, names: seq<string>)
    requires Summary(cs) == Tally(names)
    ensures forall i :: 0 <= i < |cs| ==> cs[i].count == multiset(names)[Name(cs[i].topic)] && cs[i].count >= 1
  {
    TallyCounts(names);
    TallyPositive(names);
    forall i | 0 <= i < |cs| ensures cs[i].count == multiset(names)[Name(cs[i].topic)] && cs[i].count >= 1 {
      assert Summary(cs)[i] == Entry(Name(cs[i].topic), cs[i].count);
    }
  }

  /** ... no topic occurs twice ... */
  lemma SummaryDistinct(cs: seq<Cluster>, names: seq<string>)
    requires Summary(cs) == Tally(names)
    ensures DistinctKeys(cs, TopicIndex)
  {
    TallyCounts(names);
    DistinctNames(cs);
  }

  lemma DistinctNames(cs: seq<Cluster>)
    requires Distinct(KeysOf(Summary(cs)))
    ensures DistinctKeys(cs, TopicIndex)
  {
    var keys := KeysOf(Summary(cs));
    forall i, j | 0 <= i < j < |cs| ensures TopicIndex(cs[i]) != TopicIndex(cs[j]) {
      assert keys[i] == Name(cs[i].topic) && keys[j] == Name(cs[j].topic);
      NameInjective(cs[i].topic, cs[j].topic);
    }
  }

  /** ... and a topic has a cluster exactly when its name occurs. */
  lemma SummaryPresent(cs: seq<Cluster>, names: seq<string>, t: Topic)
    requires Summary(cs) == Tally(names)
    ensures (exists i :: 0 <= i < |cs| && cs[i].topic == t) <==> Name(t) in names
  {
    TallyCounts(names);
    var keys := KeysOf(Summary(cs));
    if Name(t) in names {
      assert Name(t) in keys;
      var j :| 0 <= j < |keys| && keys[j] == Name(t);
      assert keys[j] == Name(cs[j].topic);
      NameInjective(cs[j].topic, t);
    }
    if exists i :: 0 <= i < |cs| && cs[i].topic == t {
      var i :| 0 <= i < |cs| && cs[i].topic == t;
      assert keys[i] == Name(t);
      assert keys[i] in Dedup(names);
    }
  }

  /** Each cluster counts the mails filed under its topic, which is at least
      one. */
  lemma ClusteredCounts(rows: seq<Row>)
    ensures forall i :: 0 <= i < |Clustered(rows)| ==>
      Clustered(rows)[i].count == MailsMentioning(rows, Clustered(rows)[i].topic) && Clustered(rows)[i].count >= 1
  {
    var cs, names := Clustered(rows), AllTopicNames(rows);
    ClusteredSummary(rows);
    SummaryCounts(cs, names);
    forall i | 0 <= i < |cs| ensures cs[i].count == MailsMentioning(rows, cs[i].topic) {
      TopicNameCount(rows, cs[i].topic);
    }
  }

  /** A topic has a cluster exactly when some mail is filed under it. */
  lemma ClusteredPresent(rows: seq<Row>, t: Topic)
    ensures (exists i :: 0 <= i < |Clustered(rows)| && Clustered(rows)[i].topic == t) <==> MailsMentioning(rows, t) > 0
  {
    var names := AllTopicNames(rows);
    ClusteredSummary(rows);
    SummaryPresent(Clustered(rows), names, t);
    TopicNameCount(rows, t);
    assert Name(t) in names <==> multiset(names)[Name(t)] > 0;
  }

  /** At most three clusters: one per topic. */
  lemma ClusteredAtMostThree(rows: seq<Row>)
    ensures |Clustered(rows)| <= 3
  {
    var names := AllTopicNames(rows);
    ClusteredSummary(rows);
    AllTopicNamesWithin(rows);
    TallyWithin(names, TopicNameSet);
    assert |TopicNameSet| == 3;
  }

  lemma {:induction false} AllTopicNamesWithin(rows: seq<Row>)
    ensures forall i :: 0 <= i < |AllTopicNames(rows)| ==> AllTopicNames(rows)[i] in TopicNameSet
  {
    if |rows| > 0 {
      var r := rows[|rows| - 1];
      AllTopicNamesWithin(rows[..|rows| - 1]);
      var front, last := AllTopicNames(rows[..|rows| - 1]), TopicNames(r);
      assert AllTopicNames(rows) == front + last;
      forall i | 0 <= i < |front| + |last| ensures (front + last)[i] in TopicNameSet {
        if i >= |front| {
          assert (front + last)[i] == last[i - |front|];
        } else {
          assert (front + last)[i] == front[i];
        }
      }
    }
  }

  /** `topicClusters`: every cluster counts the mails filed under its topic,
      at least one, and lists the keyword set of its topic. */
  lemma TopicClustersCounts(rows: seq<Row>)
    ensures var cl := TopicClusters(rows);
      forall i :: 0 <= i < |cl| ==>
        && cl[i].count == MailsMentioning(rows, cl[i].topic)
        && cl[i].count >= 1
        && cl[i].keywords == Keywords(cl[i].topic)
  {
    var cs, cl := Clustered(rows), TopicClusters(rows);
    ClusteredCounts(rows);
    ClusteredKeywords(rows);
    forall i | 0 <= i < |cl|
      ensures cl[i].count == MailsMentioning(rows, cl[i].topic) && cl[i].count >= 1 && cl[i].keywords == Keywords(cl[i].topic)
    {
      assert cl[i] in multiset(cs);
    }
  }

  /** `topicClusters` holds a cluster for a topic exactly when some mail is
      filed under that topic. */
  lemma TopicClustersPresent(rows: seq<Row>, t: Topic)
    ensures (exists i :: 0 <= i < |TopicClusters(rows)| && TopicClusters(rows)[i].topic == t) <==> MailsMentioning(rows, t) > 0
  {
    var cs, cl := Clustered(rows), TopicClusters(rows);
    assert multiset(cs) == multiset(cl);
    ClusteredPresent(rows, t);
    PermutationTopic(cs, cl, t);
  }

  lemma PermutationTopic(cs: seq<Cluster>, cl: seq<Cluster>, t: Topic)
    requires multiset(cs) == multiset(cl)
    ensures (exists i :: 0 <= i < |cl| && cl[i].topic == t) <==> (exists j :: 0 <= j < |cs| && cs[j].topic == t)
  {
    if exists i :: 0 <= i < |cl| && cl[i].topic == t {
      var i :| 0 <= i < |cl| && cl[i].topic == t;
      assert cl[i] in multiset(cs);
      var j :| 0 <= j < |cs| && cs[j] == cl[i];
    }
    if exists j :: 0 <= j < |cs| && cs[j].topic == t {
      var j :| 0 <= j < |cs| && cs[j].topic == t;
      assert cs[j] in multiset(cl);
      var i :| 0 <= i < |cl| && cl[i] == cs[j];
    }
  }

  /** `topicClusters`: at most three clusters, no topic twice, from the most
      used down. */
  lemma TopicClustersShape(rows: seq<Row>)
    ensures var cl := TopicClusters(rows);
      && |cl| <= 3
      && (forall i, j :: 0 <= i < j < |cl| ==> cl[i].topic != cl[j].topic)
      && (forall i, j :: 0 <= i < j < |cl| ==> cl[i].count >= cl[j].count)
  {
    var cs, cl := Clustered(rows), TopicClusters(rows);
    ClusteredAtMostThree(rows);
    ClusteredSummary(rows);
    SummaryDistinct(cs, AllTopicNames(rows));
    DistinctKeysPermutation(cs, cl, TopicIndex);
    forall i, j | 0 <= i < j < |cl| ensures cl[i].topic != cl[j].topic && cl[i].count >= cl[j].count {
      assert TopicIndex(cl[i]) != TopicIndex(cl[j]);
      assert ClusterRank(cl[i]) <= ClusterRank(cl[j]);
    }
  }

  /** The gaps between words of all subjects: a subject of `n` words has
      `n - 1`. */
  function WordGaps(rows: seq<Row>): nat {
    if |rows| == 0 then 0 else WordGaps(rows[..|rows| - 1]) + (|Words(rows[|rows| - 1])| - 1)
  }

  lemma {:induction false} AllPhrasesLength(rows: seq<Row>)
    ensures |AllPhrases(rows)| == WordGaps(rows)
  {
    if |rows| > 0 {
      AllPhrasesLength(rows[..|rows| - 1]);
    }
  }

  /** Before the ranking, the phrase counts add up to the number of word gaps
      of all subjects: each subject of `n` words adds `n - 1` phrases. */
  lemma PhraseTotal(rows: seq<Row>)
    ensures Total(PhraseCounts(rows)) == WordGaps(rows)
  {
    TallyTotal(AllPhrases(rows));
    AllPhrasesLength(rows);
  }

  /** Two lower-case words and exactly one space. */
  predicate IsPhrase(p: string) {
    IsLower(p) && multiset(p)[' '] == 1
  }

  lemma PhraseShape(a: string, b: string)
    requires ' ' !in a && ' ' !in b && IsLower(a) && IsLower(b)
    ensures IsPhrase(Phrase(a, b))
  {
    var p := Phrase(a, b);
    assert multiset(p) == multiset(a) + multiset{' '} + multiset(b);
    forall i | 0 <= i < |p| ensures LowerChar(p[i]) == p[i] {
      if i < |a| {
        assert p[i] == a[i];
      } else if i > |a| {
        assert p[i] == b[i - |a| - 1];
      }
    }
  }

  lemma {:induction false} AllPhrasesShape(rows: seq<Row>)
    ensures forall i :: 0 <= i < |AllPhrases(rows)| ==> IsPhrase(AllPhrases(rows)[i])
  {
    if |rows| > 0 {
      AllPhrasesShape(rows[..|rows| - 1]);
      BigramsShape(Words(rows[|rows| - 1]));
      PhrasesAppend(AllPhrases(rows[..|rows| - 1]), Bigrams(Words(rows[|rows| - 1])));
    }
  }

  lemma BigramsShape(words: seq<string>)
    requires forall i :: 0 <= i < |words| ==> ' ' !in words[i] && IsLower(words[i])
    ensures forall i :: 0 <= i < |Bigrams(words)| ==> IsPhrase(Bigrams(words)[i])
  {
    forall i | 0 <= i < |Bigrams(words)| ensures IsPhrase(Bigrams(words)[i]) {
      PhraseShape(words[i], words[i + 1]);
    }
  }

  lemma PhrasesAppend(a: seq<string>, b: seq<string>)
    requires forall i :: 0 <= i < |a| ==> IsPhrase(a[i])
    requires forall i :: 0 <= i < |b| ==> IsPhrase(b[i])
    ensures forall i :: 0 <= i < |a + b| ==> IsPhrase((a + b)[i])
  {
    forall i | 0 <= i < |a + b| ensures IsPhrase((a + b)[i]) {
      if i >= |a| {
        assert (a + b)[i] == b[i - |a|];
      }
    }
  }

  /** Every counted phrase is two lower-case words joined by one space. */
  lemma PhraseCountsShape(rows: seq<Row>)
    ensures forall i :: 0 <= i < |PhraseCounts(rows)| ==> IsPhrase(PhraseCounts(rows)[i].key)
  {
    var ks, c := AllPhrases(rows), PhraseCounts(rows);
    TallyCounts(ks);
    AllPhrasesShape(rows);
    forall i | 0 <= i < |c| ensures IsPhrase(c[i].key) {
      assert KeysOf(c)[i] == c[i].key;
      var j :| 0 <= j < |ks| && ks[j] == c[i].key;
    }
  }

  /** `commonSubjects`: the ten most used phrases (all of them when there are
      fewer), from the most used down, each with its number of uses. */
  lemma CommonSubjectsRanked(rows: seq<Row>)
    ensures var top := CommonSubjects(rows);
      && |top| == (if |PhraseCounts(rows)| < 10 then |PhraseCounts(rows)| else 10)
      && (forall i, j :: 0 <= i < j < |top| ==> top[i].count >= top[j].count)
      && (forall i :: 0 <= i < |top| ==> top[i].count == multiset(AllPhrases(rows))[top[i].key])
  {
    var c := PhraseCounts(rows);
    var top := TopTen(c);
    TopTenLength(c);
    TopTenDescending(c);
    TopTenKept(c);
    TallyCounts(AllPhrases(rows));
    forall i | 0 <= i < |top| ensures top[i].count == multiset(AllPhrases(rows))[top[i].key] {
      CountsEntry(c, AllPhrases(rows), top[i]);
    }
  }

  /** A phrase left out of `commonSubjects` is used no more often than the
      last one kept, and then ten are kept. */
  lemma CommonSubjectsComplete(rows: seq<Row>, e: Entry)
    requires e in PhraseCounts(rows) && e !in CommonSubjects(rows)
    ensures |CommonSubjects(rows)| == 10 && e.count <= CommonSubjects(rows)[9].count
  {
    TopTenSelects(PhraseCounts(rows));
  }

  /** Without mails both results are empty. */
  lemma NoMails()
    ensures CommonSubjects([]) == [] && TopicClusters([]) == []
  {
  }

  /** The subject "faktura för möte idag" gives the three phrases "faktura
      för", "för möte" and "möte idag", each counted once. */
  lemma SubjectExample(r: Row)
    requires Subject(r) == "faktura för möte idag"
    ensures PhraseCounts([r]) == [Entry("faktura för", 1), Entry("för möte", 1), Entry("möte idag", 1)]
  {
    ExampleLower();
    ExampleWords();
    assert Words(r) == ["faktura", "för", "möte", "idag"];
    ExampleBigrams();
    assert [r][..0] == [];
    assert AllPhrases([r]) == ["faktura för", "för möte", "möte idag"];
    TallyThree("faktura för", "för möte", "möte idag");
  }

  lemma ExampleLower()
    ensures Lower("faktura för möte idag") == "faktura för möte idag"
  {
    assert IsLower("faktura för möte idag");
    LowerOfLower("faktura för möte idag");
  }

  lemma ExampleWords()
    ensures Split("faktura för möte idag", ' ') == ["faktura", "för", "möte", "idag"]
  {
    assert "faktura för möte idag" == "faktura" + [' '] + ("för" + [' '] + ("möte" + [' '] + "idag"));
    SplitFour("faktura", "för", "möte", "idag");
  }

  /** Four words without spaces, joined by single spaces, split back into
      the four words. */
  lemma SplitFour(a: string, b: string, c: string, d: string)
    requires ' ' !in a && ' ' !in b && ' ' !in c && ' ' !in d
    ensures Split(a + [' '] + (b + [' '] + (c + [' '] + d)), ' ') == [a, b, c, d]
  {
    SplitThree(b, c, d, ' ');
    SplitAt(a, b + [' '] + (c + [' '] + d), ' ');
  }

  lemma ExampleBigrams()
    ensures Bigrams(["faktura", "för", "möte", "idag"]) == ["faktura för", "för möte", "möte idag"]
  {
    var w := ["faktura", "för", "möte", "idag"];
    assert Bigrams(w)[0] == Phrase("faktura", "för") == "faktura för";
    assert Bigrams(w)[1] == Phrase("för", "möte") == "för möte";
    assert Bigrams(w)[2] == Phrase("möte", "idag") == "möte idag";
  }
}
