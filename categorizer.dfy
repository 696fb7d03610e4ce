/** Keyword categorisation of one e-mail. Subject and content are lower-cased
    and searched for fixed Swedish and English keywords as substrings; the
    subject decides only whether the mail is urgent, the content decides the
    three other categories. */
module Categorizer {
  import opened Seqs
  import opened Text

  datatype Category = Complaints | Urgent | Inquiries | Feedback

  /** The position of a category in the result: the order of the tests. */
  function Position(c: Category): int {
    match c
    case Complaints => 0
    case Urgent => 1
    case Inquiries => 2
    case Feedback => 3
  }

  const ComplaintWords: seq<string> := ["problem", "klagomål", "missnöjd", "fel", "dålig"]
  const UrgentWords: seq<string> := ["urgent", "asap", "brådskande", "akut"]
  const InquiryWords: seq<string> := ["fråga", "undrar", "hur", "när", "vem"]
  const FeedbackWords: seq<string> := ["feedback", "förslag", "tycker", "åsikt"]

  /** `categorizeEmail(subject, content)`: the categories whose keywords occur,
      in the order complaints, urgent, inquiries, feedback. */
  function Categorize(subject: string, content: string): (cats: seq<Category>)
    ensures Complaints in cats <==> ContainsAny(Lower(content), ComplaintWords)
    ensures Urgent in cats <==> ContainsAny(Lower(subject), UrgentWords)
    ensures Inquiries in cats <==> ContainsAny(Lower(content), InquiryWords)
    ensures Feedback in cats <==> ContainsAny(Lower(content), FeedbackWords)
    ensures forall i, j :: 0 <= i < j < |cats| ==> Position(cats[i]) < Position(cats[j])
  {
    var lowerSubject := Lower(subject);
    var lowerContent := Lower(content);
    (if ContainsAny(lowerContent, ComplaintWords) then [Complaints] else [])
    + (if ContainsAny(lowerSubject, UrgentWords) then [Urgent] else [])
    + (if ContainsAny(lowerContent, InquiryWords) then [Inquiries] else [])
    + (if ContainsAny(lowerContent, FeedbackWords) then [Feedback] else [])
  }

  /** No category is listed twice, so each tag adds one to one counter. */
  lemma CategorizeOnce(subject: string, content: string, c: Category)
    ensures multiset(Categorize(subject, content))[c] == if c in Categorize(subject, content) then 1 else 0
  {
    CategorizeDistinct(subject, content);
    DistinctMultiset(Categorize(subject, content), c);
  }

  lemma CategorizeDistinct(subject: string, content: string)
    ensures Distinct(Categorize(subject, content))
    ensures |Categorize(subject, content)| <= 4
  {
    var cats := Categorize(subject, content);
    forall i, j | 0 <= i < j < |cats| ensures cats[i] != cats[j] {
      assert Position(cats[i]) < Position(cats[j]);
    }
  }

  /** Matching ignores case: upper-casing letters of the subject or content
      does not change the categories. */
  lemma CategorizeIgnoresCase(subject: string, content: string)
    ensures Categorize(Lower(subject), Lower(content)) == Categorize(subject, content)
  {
    LowerIsLower(subject);
    LowerIsLower(content);
  }

  /** The subject affects only the urgent tag: two mails with the same
      content differ at most in `Urgent`. */
  lemma SubjectOnlyUrgent(s1: string, s2: string, content: string)
    ensures forall c :: c != Urgent ==> (c in Categorize(s1, content) <==> c in Categorize(s2, content))
  {
  }

  /** The content never makes a mail urgent: with the same subject, two mails
      agree on `Urgent`. */
  lemma ContentNotUrgent(subject: string, c1: string, c2: string)
    ensures Urgent in Categorize(subject, c1) <==> Urgent in Categorize(subject, c2)
  {
  }

  /** A text that holds a complaint keyword is tagged as a complaint. */
  lemma ComplaintKeyword(subject: string, content: string, k: int)
    requires 0 <= k < |ComplaintWords|
    requires Contains(Lower(content), ComplaintWords[k])
    ensures Complaints in Categorize(subject, content)
  {
  }

  /** A text without any keyword is in no category. */
  lemma NoKeywords(subject: string, content: string)
    requires !ContainsAny(Lower(subject), UrgentWords)
    requires !ContainsAny(Lower(content), ComplaintWords + InquiryWords + FeedbackWords)
    ensures Categorize(subject, content) == []
  {
    var all := ComplaintWords + InquiryWords + FeedbackWords;
    forall k | 0 <= k < |ComplaintWords| ensures !Contains(Lower(content), ComplaintWords[k]) {
      assert all[k] == ComplaintWords[k];
    }
    forall k | 0 <= k < |InquiryWords| ensures !Contains(Lower(content), InquiryWords[k]) {
      assert all[|ComplaintWords| + k] == InquiryWords[k];
    }
    forall k | 0 <= k < |FeedbackWords| ensures !Contains(Lower(content), FeedbackWords[k]) {
      assert all[|ComplaintWords| + |InquiryWords| + k] == FeedbackWords[k];
    }
  }
}
