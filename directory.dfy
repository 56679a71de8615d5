/**
 * The list of recent emails the assistant keeps, and the two ways the command
 * interpreter looks records up in it: the first record whose lower-cased sender
 * or subject contains a query (Array.prototype.find), and the filter used by a
 * search (Array.prototype.filter over sender, subject and summary).
 */
module Directory {
  import opened Seqs
  import opened Text

  /** One entry of `recentEmails`, as the read-emails response delivers it. */
  datatype Email = Email(id: string, sender: string, subject: string, snippet: string, summary: string)

  /** The record field a delete-by-query looks at. */
  datatype Field = SenderField | SubjectField

  function FieldText(e: Email, f: Field): string
  {
    match f
    case SenderField => e.sender
    case SubjectField => e.subject
  }

  /** The lookup predicate of `find`: the lower-cased field contains the query. */
  predicate FieldMatches(e: Email, f: Field, q: string)
  {
    Includes(Lower(FieldText(e, f)), q)
  }

  /** Index of the first record, from `from` on, whose field matches the query. */
  function FirstMatch(es: seq<Email>, f: Field, q: string, from: nat): (r: Option<nat>)
    requires from <= |es|
    ensures r.Some? ==> from <= r.value < |es| && FieldMatches(es[r.value], f, q)
    ensures r.Some? ==> forall j :: from <= j < r.value ==> !FieldMatches(es[j], f, q)
    ensures r.None? ==> forall j :: from <= j < |es| ==> !FieldMatches(es[j], f, q)
    decreases |es| - from
  {
    if from == |es| then None
    else if FieldMatches(es[from], f, q) then Some(from)
    else FirstMatch(es, f, q, from + 1)
  }

  /** `find` with an empty query returns the first record: every string contains "". */
  lemma EmptyQueryMatchesFirst(es: seq<Email>, f: Field)
    requires es != []
    ensures FirstMatch(es, f, "", 0) == Some(0)
  {
    assert OccursAt(Lower(FieldText(es[0], f)), "", 0);
  }

  /** The search predicate: sender, subject or summary, lower-cased, contains the keyword. */
  predicate SearchMatches(e: Email, kw: string)
    ensures kw == [] ==> SearchMatches(e, kw)
  {
    assert OccursAt(Lower(e.sender), [], 0);
    Includes(Lower(e.sender), kw) || Includes(Lower(e.subject), kw) || Includes(Lower(e.summary), kw)
  }

  /** The records kept by the search filter, in list order. */
  function SearchResults(es: seq<Email>, kw: string): (r: seq<Email>)
    ensures |r| <= |es|
    ensures forall e :: e in r <==> e in es && SearchMatches(e, kw)
    ensures forall e :: multiset(r)[e] == if SearchMatches(e, kw) then multiset(es)[e] else 0
  {
    if es == [] then []
    else
      var rest := SearchResults(es[1..], kw);
      assert es == [es[0]] + es[1..];
      if SearchMatches(es[0], kw) then [es[0]] + rest else rest
  }

  /** The filter keeps the list order: its result is a subsequence of the list. */
  lemma {:induction false} SearchResultsSubsequence(es: seq<Email>, kw: string)
    ensures IsSubsequence(SearchResults(es, kw), es)
  {
    if es != [] {
      SearchResultsSubsequence(es[1..], kw);
      if !SearchMatches(es[0], kw) {
        SubsequenceWeaken(SearchResults(es[1..], kw), es[1..], es[0]);
        assert [es[0]] + es[1..] == es;
      }
    }
  }

  /** Every record matches the empty keyword, so the filter then keeps the whole list. */
  lemma {:induction false} SearchResultsEverything(es: seq<Email>)
    ensures SearchResults(es, "") == es
  {
    if es != [] {
      assert OccursAt(Lower(es[0].sender), "", 0);
      SearchResultsEverything(es[1..]);
      assert [es[0]] + es[1..] == es;
    }
  }
}
