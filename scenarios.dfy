/**
 * Commands of the kind the chat's guide suggests, some of them exactly as the guide writes
 * them, followed through the interpreter from
 * the typed text to the decision.  Each command is a parameter pinned to its text, so that
 * the proofs reason about its characters rather than evaluating every definition on it.
 */
module Scenarios {
  import opened Seqs
  import opened Text
  import opened Extract
  import opened Directory
  import opened Interpreter
  import opened Assistant

  // ---------------------------------------------------------------- precedence

  /** A command that says one of the delete words and none of the help or grouping words goes
      to the delete branch. */
  lemma DeleteReachedBy(l: string, w: string)
    requires w in DeleteWords && Includes(l, w)
    requires !AnyIncluded(l, HelpWords) && !AnyIncluded(l, GroupWords)
    ensures Reaches(l, 2)
  {
  }

  /** A command that says one of the search words and none of the earlier rules' words goes to
      the search branch. */
  lemma SearchReachedBy(l: string, w: string)
    requires w in SearchWords && Includes(l, w)
    requires !AnyIncluded(l, HelpWords) && !AnyIncluded(l, GroupWords) && !AnyIncluded(l, DeleteWords)
    ensures Reaches(l, 3)
  {
  }

  /** Commands that differ only in the case of their letters are interpreted alike. */
  lemma LowerCaseVariant(c: string, l: string, recent: seq<Email>)
    requires |c| == |l| && HasNoUpper(l)
    requires forall i :: 0 <= i < |c| ==> LowerChar(c[i]) == l[i]
    ensures Interpret(c, recent) == Interpret(l, recent)
  {
    LowerAt(c);
    LowerNoUpper(l);
    assert Lower(c) == l;
  }

  // ---------------------------------------------------------------- "delete email number N"

  const DeletePrefix: string := "delete email "

  /** "delete email number N" reaches the delete branch: it says "delete" and lacks a letter of
      every help and grouping word. */
  lemma DeleteNumberReaches(l: string, n: char)
    requires IsDigit(n) && l == DeletePrefix + "number" + " " + [n]
    ensures Reaches(l, 2)
  {
    assert l[0..6] == "delete";
    OccursAtSlice(l, "delete", 0);
    IncludesAt(l, "delete", 0);
    DeleteNumberNoHelp(l, n);
    DeleteNumberNoGroup(l, n);
    DeleteReachedBy(l, "delete");
  }

  lemma DeleteNumberNoHelp(l: string, n: char)
    requires IsDigit(n) && l == DeletePrefix + "number" + " " + [n]
    ensures !AnyIncluded(l, HelpWords)
  {
    NoneIncluded(l, HelpWords, [0, 0, 0]);
  }


  lemma DeleteNumberNoGroup(l: string, n: char)
    requires IsDigit(n) && l == DeletePrefix + "number" + " " + [n]
    ensures !AnyIncluded(l, GroupWords)
  {
    NoneIncluded(l, GroupWords, [0, 0, 0]);
  }


  /** The only ordinal in "delete email number N" is the N after "number": nothing before it
      has an "n" or a "#". */
  lemma DeleteNumberOrdinal(l: string, n: char)
    requires IsDigit(n) && l == DeletePrefix + "number" + " " + [n]
    ensures OrdinalDigits(l) == Some([n])
  {
    DeleteNumberAt(l, n);
    DeleteNumberNothingBefore(l, n);
    LeftmostOrdinal(l, |DeletePrefix|, [n]);
  }

  lemma DeleteNumberAt(l: string, n: char)
    requires IsDigit(n) && l == DeletePrefix + "number" + " " + [n]
    ensures OrdinalAt(l, |DeletePrefix|) == Some([n])
  {
    OrdinalSpellings(DeletePrefix, "number", " ", [n], []);
    assert l == DeletePrefix + "number" + " " + [n] + [];
  }

  lemma DeleteNumberNothingBefore(l: string, n: char)
    requires IsDigit(n) && l == DeletePrefix + "number" + " " + [n]
    ensures forall q :: 0 <= q < |DeletePrefix| ==> OrdinalAt(l, q).None?
  {
    NoOrdinalBefore(DeletePrefix, "number" + " " + [n]);
    assert l == DeletePrefix + ("number" + " " + [n]);
  }

  /** "delete email number 2" asks to confirm deleting the second listed email. */
  lemma DeleteSecondEmail(command: string, recent: seq<Email>)
    requires command == "delete email number 2"
    requires |recent| >= 2
    ensures Interpret(command, recent) == ConfirmDelete(recent[1].id, recent[1].subject)
  {
    assert command == DeletePrefix + "number" + " " + ['2'];
    LowerNoUpper(command);
    DeleteNumberReaches(command, '2');
    DeleteNumberOrdinal(command, '2');
    OneDigit('2');
    OrdinalDecides(command, recent, "2");
  }

  /** "delete email number 1" asks to confirm deleting the first listed email, and with an
      empty list says that there is no email number 1. */
  lemma DeleteFirstEmail(l: string, recent: seq<Email>)
    requires l == "delete email number 1"
    ensures Interpret(l, recent) ==
      if |recent| >= 1 then ConfirmDelete(recent[0].id, recent[0].subject)
      else Reply(NoSuchNumber("1"))
  {
    assert l == DeletePrefix + "number" + " " + ['1'];
    LowerNoUpper(l);
    DeleteNumberReaches(l, '1');
    DeleteNumberOrdinal(l, '1');
    OneDigit('1');
    OrdinalDecides(l, recent, "1");
  }

  /** The guide's hint as it is written, "Delete email number 1", is the same command. */
  lemma DeleteFirstHint(command: string, recent: seq<Email>)
    requires command == "Delete email number 1"
    ensures Interpret(command, recent) ==
      if |recent| >= 1 then ConfirmDelete(recent[0].id, recent[0].subject)
      else Reply(NoSuchNumber("1"))
  {
    DeleteFirstHintLowers(command, recent);
    DeleteFirstEmail("delete email number 1", recent);
  }

  /** The hint lower-cases to "delete email number 1". */
  lemma DeleteFirstHintLowers(command: string, recent: seq<Email>)
    requires command == "Delete email number 1"
    ensures Interpret(command, recent) == Interpret("delete email number 1", recent)
  {
    LowerCaseVariant(command, "delete email number 1", recent);
  }

  /** "delete email number 9" with fewer than nine emails listed says there is no such number,
      quoting "9". */
  lemma DeleteMissingNinth(command: string, recent: seq<Email>)
    requires command == "delete email number 9"
    requires |recent| < 9
    ensures Interpret(command, recent) == Reply(NoSuchNumber("9"))
  {
    assert command == DeletePrefix + "number" + " " + ['9'];
    LowerNoUpper(command);
    DeleteNumberReaches(command, '9');
    DeleteNumberOrdinal(command, '9');
    OneDigit('9');
    OrdinalDecides(command, recent, "9");
  }

  /** What the chat shows for it: the command as typed, then one bot line saying that there
      is no email number 9. */
  lemma MissingNinthTranscript(command: string, recent: seq<Email>)
    requires command == "delete email number 9"
    requires |recent| < 9
    ensures |Transcript(command, Interpret(command, recent))| == 2
    ensures Transcript(command, Interpret(command, recent))[1].role == Bot
    ensures Quotes(Transcript(command, Interpret(command, recent))[1].content,
                   NoSuchNumberHead, "9", NoSuchNumberTail)
  {
    DeleteMissingNinth(command, recent);
  }

  // ---------------------------------------------------------------- "search"

  /** "search" reaches the search branch: it lacks a letter of every earlier rule's word. */
  lemma SearchWordReaches(l: string)
    requires l == "search"
    ensures Reaches(l, 3)
  {
    assert l[0..6] == "search";
    OccursAtSlice(l, "search", 0);
    IncludesAt(l, "search", 0);
    SearchWordNoHelp(l);
    SearchWordNoGroup(l);
    SearchWordNoDelete(l);
    SearchReachedBy(l, "search");
  }

  lemma SearchWordNoHelp(l: string)
    requires l == "search"
    ensures !AnyIncluded(l, HelpWords)
  {
    NoneIncluded(l, HelpWords, [3, 1, 0]);
  }


  lemma SearchWordNoGroup(l: string)
    requires l == "search"
    ensures !AnyIncluded(l, GroupWords)
  {
    NoneIncluded(l, GroupWords, [0, 2, 1]);
  }


  lemma SearchWordNoDelete(l: string)
    requires l == "search"
    ensures !AnyIncluded(l, DeleteWords)
  {
    NoneIncluded(l, DeleteWords, [0, 0, 2]);
  }


  /** The stop word "search" is everything "search" says, so no keyword is left. */
  lemma SearchWordKeyword(l: string)
    requires l == "search"
    ensures SearchKeyword(l) == []
  {
    assert l[0..6] == StopWords[1];
    OccursAtSlice(l, StopWords[1], 0);
    assert AlternativeAt(l, StopWords, 0) == Some(1);
    RemoveCut(l, StopWords, 0, 1);
  }

  /** "search" alone leaves no keyword, so the bot asks for one, whatever the list holds. */
  lemma SearchAlone(command: string, recent: seq<Email>)
    requires command == "search"
    ensures Interpret(command, recent) == Reply(AskSearchTerm)
  {
    LowerNoUpper(command);
    SearchWordReaches(command);
    SearchWordKeyword(command);
    SearchEmpty(command, recent);
  }

  // ---------------------------------------------------------------- "find emails from amazon"

  /** "find emails from amazon" reaches the search branch: it lacks a letter of every earlier
      rule's word. */
  lemma FindAmazonReaches(l: string)
    requires l == "find emails from amazon"
    ensures Reaches(l, 3)
  {
    assert l[0..4] == "find";
    OccursAtSlice(l, "find", 0);
    IncludesAt(l, "find", 0);
    FindAmazonNoHelp(l);
    FindAmazonNoGroup(l);
    FindAmazonNoDelete(l);
    SearchReachedBy(l, "find");
  }

  lemma FindAmazonNoHelp(l: string)
    requires l == "find emails from amazon"
    ensures !AnyIncluded(l, HelpWords)
  {
    NoneIncluded(l, HelpWords, [0, 0, 0]);
  }


  lemma FindAmazonNoGroup(l: string)
    requires l == "find emails from amazon"
    ensures !AnyIncluded(l, GroupWords)
  {
    NoneIncluded(l, GroupWords, [0, 0, 4]);
  }


  lemma FindAmazonNoDelete(l: string)
    requires l == "find emails from amazon"
    ensures !AnyIncluded(l, DeleteWords)
  {
    NoneIncluded(l, DeleteWords, [4, 0, 4]);
  }


  /** The three stop words the pass cuts: "find" at 0, "emails" (before "email") at 5 and
      "from" at 12. */
  lemma FindAmazonCut0(l: string)
    requires l == "find emails from amazon"
    ensures AlternativeAt(l, StopWords, 0) == Some(0)
  {
    assert l[0..4] == StopWords[0];
    OccursAtSlice(l, StopWords[0], 0);
  }

  lemma FindAmazonCut5(l: string)
    requires l == "find emails from amazon"
    ensures AlternativeAt(l, StopWords, 5) == Some(3)
  {
    assert l[5..11] == StopWords[3];
    OccursAtSlice(l, StopWords[3], 5);
  }

  lemma FindAmazonCut12(l: string)
    requires l == "find emails from amazon"
    ensures AlternativeAt(l, StopWords, 12) == Some(5)
  {
    assert l[12..16] == StopWords[5];
    OccursAtSlice(l, StopWords[5], 12);
  }

  /** No stop word starts at the "a", "m" and "a" that open "amazon". */
  lemma FindAmazonTail(l: string)
    requires l == "find emails from amazon"
    ensures AlternativeAt(l, StopWords, 17) == None
    ensures AlternativeAt(l, StopWords, 18) == None
    ensures AlternativeAt(l, StopWords, 19) == None
  {
  }

  /** Nor at the "z", "o" and "n" that close it. */
  lemma FindAmazonEnd(l: string)
    requires l == "find emails from amazon"
    ensures AlternativeAt(l, StopWords, 20) == None
    ensures AlternativeAt(l, StopWords, 21) == None
    ensures AlternativeAt(l, StopWords, 22) == None
  {
    NoStopWordAt(l, 20);
    NoStopWordAt(l, 21);
    NoStopWordAt(l, 22);
  }

  /** Cutting the stop words leaves the three spaces and "amazon". */
  lemma FindAmazonFind(l: string)
    requires l == "find emails from amazon"
    ensures RemoveWords(l, StopWords, 0) == " " + RemoveWords(l, StopWords, 5)
  {
    FindAmazonCut0(l);
    NoStopWordAt(l, 4);
    RemoveCut(l, StopWords, 0, 0);
    RemoveKeep(l, StopWords, 4);
  }

  lemma FindAmazonEmails(l: string)
    requires l == "find emails from amazon"
    ensures RemoveWords(l, StopWords, 5) == " " + RemoveWords(l, StopWords, 12)
  {
    FindAmazonCut5(l);
    NoStopWordAt(l, 11);
    RemoveCut(l, StopWords, 5, 3);
    RemoveKeep(l, StopWords, 11);
  }

  lemma FindAmazonFrom(l: string)
    requires l == "find emails from amazon"
    ensures RemoveWords(l, StopWords, 12) == " " + RemoveWords(l, StopWords, 17)
  {
    FindAmazonCut12(l);
    NoStopWordAt(l, 16);
    RemoveCut(l, StopWords, 12, 5);
    RemoveKeep(l, StopWords, 16);
  }

  lemma FindAmazonRest(l: string)
    requires l == "find emails from amazon"
    ensures RemoveWords(l, StopWords, 17) == "amazon"
  {
    FindAmazonTail(l);
    FindAmazonEnd(l);
    RemoveKeep(l, StopWords, 22);
    RemoveKeep(l, StopWords, 21);
    RemoveKeep(l, StopWords, 20);
    RemoveKeep(l, StopWords, 19);
    RemoveKeep(l, StopWords, 18);
    RemoveKeep(l, StopWords, 17);
  }

  /** "find emails from amazon" searches for "amazon" and lists the records that mention it,
      or says that none does. */
  lemma FindFromAmazon(command: string, recent: seq<Email>)
    requires command == "find emails from amazon"
    ensures SearchKeyword(command) == "amazon"
    ensures var results := SearchResults(recent, "amazon");
      Interpret(command, recent) ==
        if results != [] then EmailList(Found(|results|, "amazon"), results)
        else Reply(NothingFound("amazon"))
  {
    LowerNoUpper(command);
    FindAmazonReaches(command);
    FindAmazonKeyword(command);
    SearchOutcome(command, recent);
  }

  /** The pass leaves "   amazon", which trims to "amazon". */
  lemma FindAmazonKeyword(l: string)
    requires l == "find emails from amazon"
    ensures SearchKeyword(l) == "amazon"
  {
    FindAmazonStripped(l);
    TrimExact("   ", "amazon", "");
    assert "   " + "amazon" + "" == "   amazon";
  }

  lemma FindAmazonStripped(l: string)
    requires l == "find emails from amazon"
    ensures StripStopWords(l) == "   amazon"
  {
    FindAmazonFind(l);
    FindAmazonEmails(l);
    FindAmazonFrom(l);
    FindAmazonRest(l);
  }

  /** The guide's hint as it is written, "Find emails from Amazon", searches for "amazon". */
  lemma FindAmazonHint(command: string, recent: seq<Email>)
    requires command == "Find emails from Amazon"
    ensures var results := SearchResults(recent, "amazon");
      Interpret(command, recent) ==
        if results != [] then EmailList(Found(|results|, "amazon"), results)
        else Reply(NothingFound("amazon"))
  {
    FindAmazonHintLowers(command, recent);
    FindFromAmazon("find emails from amazon", recent);
  }

  /** The hint lower-cases to "find emails from amazon". */
  lemma FindAmazonHintLowers(command: string, recent: seq<Email>)
    requires command == "Find emails from Amazon"
    ensures Interpret(command, recent) == Interpret("find emails from amazon", recent)
  {
    LowerCaseVariant(command, "find emails from amazon", recent);
  }
}
