/**
 * The chat command interpreter (`handleCommand`) as a pure function from the typed command and
 * the list of recent emails to a `Decision`: which branch of the keyword chain fires and what
 * it asks the assistant to do.  The surrounding component state is in module Assistant.
 */
module Interpreter {
  import opened Seqs
  import opened Text
  import opened Extract
  import opened Directory

  /** What the command asks for.  Network work is an abstract request: the categorize call
      (SmartGroup), the confirmation dialog and delete call for a record (ConfirmDelete) and
      the read-emails call (FetchInbox). */
  datatype Decision =
    | ShowHelp
    | SmartGroup
    | ConfirmDelete(id: string, subject: string)
    | Reply(text: BotText)
    | EmailList(text: BotText, emails: seq<Email>)
    | FetchInbox

  // ---------------------------------------------------------------- the keyword chain

  datatype Intent = Help | Group | Delete | Search | Read

  /** One link of the chain: the intent chosen when any of the words is included. */
  datatype Rule = Rule(intent: Intent, words: seq<string>)

  const HelpWords: seq<string> := ["help", "commands", "guide"]
  const GroupWords: seq<string> := ["group", "categorize", "smart"]
  const DeleteWords: seq<string> := ["delete", "trash", "remove"]
  const SearchWords: seq<string> := ["find", "search", "show"]
  const ReadWords: seq<string> := ["read", "email", "refresh", "inbox", "check"]

  /** The rules in the order the interpreter tests them. */
  const Rules: seq<Rule> := [
    Rule(Help, HelpWords), Rule(Group, GroupWords), Rule(Delete, DeleteWords),
    Rule(Search, SearchWords), Rule(Read, ReadWords)]

  /** The first rule, from `from` on, one of whose words the command includes. */
  function FirstRule(l: string, rules: seq<Rule>, from: nat): (r: Option<nat>)
    requires from <= |rules|
    ensures r.Some? ==> from <= r.value < |rules| && AnyIncluded(l, rules[r.value].words)
    ensures r.Some? ==> forall h :: from <= h < r.value ==> !AnyIncluded(l, rules[h].words)
    ensures r.None? ==> forall h :: from <= h < |rules| ==> !AnyIncluded(l, rules[h].words)
    decreases |rules| - from
  {
    if from == |rules| then None
    else if AnyIncluded(l, rules[from].words) then Some(from)
    else FirstRule(l, rules, from + 1)
  }

  /** The intent of the first rule that fires, if any does. */
  function Classify(l: string): (r: Option<Intent>)
    ensures r.Some? <==> exists g :: 0 <= g < |Rules| && AnyIncluded(l, Rules[g].words)
    ensures r.Some? ==> exists g :: 0 <= g < |Rules| && Reaches(l, g) && r.value == Rules[g].intent
  {
    match FirstRule(l, Rules, 0)
    case Some(g) => Some(Rules[g].intent)
    case None => None
  }

  /** Rule `g` is the one that fires: it matches and no earlier rule does. */
  predicate Reaches(l: string, g: nat)
    requires g < |Rules|
  {
    AnyIncluded(l, Rules[g].words) && forall h :: 0 <= h < g ==> !AnyIncluded(l, Rules[h].words)
  }

  /** Precedence: a rule's intent is chosen exactly when that rule fires. */
  lemma ClassifyFirst(l: string, g: nat)
    requires g < |Rules|
    ensures Classify(l) == Some(Rules[g].intent) <==> Reaches(l, g)
  {
    match FirstRule(l, Rules, 0)
    case Some(h) =>
      if Reaches(l, g) {
        assert h == g;
      }
    case None =>
  }

  /** No intent at all exactly when no word of any rule is included. */
  lemma ClassifyNone(l: string)
    ensures Classify(l) == None <==> forall g :: 0 <= g < |Rules| ==> !AnyIncluded(l, Rules[g].words)
  {
  }

  // ---------------------------------------------------------------- replies

  /** The bot replies the interpreter chooses between, with what each one quotes. */
  datatype BotText =
    | OpenedGuide
    | NoSuchNumber(digits: string)
    | NoSuchSender(query: string)
    | UnsureWhichDelete
    | AskSearchTerm
    | Found(count: nat, keyword: string)
    | NothingFound(keyword: string)
    | NotUnderstood

  const OpenedGuideText: string := "I've opened the command guide for you."
  const NoSuchNumberHead: string := "I couldn't find email number "
  const NoSuchNumberTail: string := ". Please check the list numbers."
  const NoSuchSenderHead: string := "I couldn't find an email from \""
  const NoSuchSenderTail: string := "\" in your recent list."
  const UnsureWhichDeleteText: string := "I'm not sure which email to delete. Try saying 'Delete email number 1'."
  const AskSearchTermText: string := "What should I search for? Try 'Find emails from Google'."
  const FoundHead: string := "I found "
  const FoundMiddle: string := " emails matching \""
  const FoundTail: string := "\":"
  const NothingFoundHead: string := "I checked your recent emails but couldn't find anything matching \""
  const NothingFoundTail: string := "\"."
  const NotUnderstoodText: string :=
    "I'm tuned to manage your inbox. Try 'Check Inbox', 'Find emails from Google', or 'Delete email number 1'."

  /** `r` is the fixed text `head`, then `q` as it is, then the fixed text `tail`. */
  predicate Quotes(r: string, head: string, q: string, tail: string)
  {
    && |r| == |head| + |q| + |tail|
    && r[..|head|] == head
    && r[|head|..|head| + |q|] == q
    && r[|head| + |q|..] == tail
  }

  /** The words of each reply, as the chat shows them. */
  function Render(t: BotText): (r: string)
    ensures t.NoSuchNumber? ==> Quotes(r, NoSuchNumberHead, t.digits, NoSuchNumberTail)
    ensures t.NoSuchSender? ==> Quotes(r, NoSuchSenderHead, t.query, NoSuchSenderTail)
    ensures t.NothingFound? ==> Quotes(r, NothingFoundHead, t.keyword, NothingFoundTail)
  {
    match t
    case OpenedGuide => OpenedGuideText
    case NoSuchNumber(digits) => NoSuchNumberHead + digits + NoSuchNumberTail
    case NoSuchSender(q) => NoSuchSenderHead + q + NoSuchSenderTail
    case UnsureWhichDelete => UnsureWhichDeleteText
    case AskSearchTerm => AskSearchTermText
    case Found(n, kw) => FoundHead + NatToString(n) + FoundMiddle + kw + FoundTail
    case NothingFound(kw) => NothingFoundHead + kw + NothingFoundTail
    case NotUnderstood => NotUnderstoodText
  }

  /** The count in "I found N emails" reads back as the number of results, and the keyword is
      quoted as it is. */
  lemma FoundTextCount(n: nat, kw: string)
    ensures var digits := NatToString(n);
      Render(Found(n, kw))[..|FoundHead| + |digits|] == FoundHead + digits && DecimalValue(digits) == n
    ensures var t := Render(Found(n, kw)); var tail := FoundTail;
      t[|t| - |tail| - |kw|..|t| - |tail|] == kw
  {
    var digits := NatToString(n);
    var t := Render(Found(n, kw));
    assert t == (FoundHead + digits) + (FoundMiddle + kw + FoundTail);
    assert t == (FoundHead + digits + FoundMiddle) + kw + FoundTail;
  }

  // ---------------------------------------------------------------- delete

  const FromWords: seq<string> := ["from"]
  const SubjectWords: seq<string> := ["about", "subject"]

  function DeleteTarget(e: Email): Decision
  {
    ConfirmDelete(e.id, e.subject)
  }

  /** The ordinal pattern matches nowhere in the command. */
  predicate NoOrdinal(l: string)
  {
    forall p :: 0 <= p < |l| ==> OrdinalAt(l, p).None?
  }

  /** The replies the delete branch can give. */
  predicate DeleteReply(t: BotText)
  {
    t.NoSuchNumber? || t.NoSuchSender? || t == UnsureWhichDelete
  }

  /** The ordinal strategy: the digits, read as a decimal number n, select record n - 1. */
  function DeleteByOrdinal(digits: string, recent: seq<Email>): (d: Decision)
    requires AllDigits(digits)
    ensures d.Reply? ==> DeleteReply(d.text)
    ensures d.ConfirmDelete? ==>
      exists i :: 0 <= i < |recent| && d == ConfirmDelete(recent[i].id, recent[i].subject)
  {
    var index := DecimalValue(digits) - 1;
    if 0 <= index < |recent| then DeleteTarget(recent[index])
    else Reply(NoSuchNumber(digits))
  }

  /** The sender strategy: the trimmed text after the first "from", up to the next one. */
  function DeleteBySender(l: string, recent: seq<Email>): (d: Decision)
    requires Includes(l, "from")
    ensures d.Reply? ==> DeleteReply(d.text)
    ensures d.ConfirmDelete? ==>
      exists i :: 0 <= i < |recent| && d == ConfirmDelete(recent[i].id, recent[i].subject)
  {
    IncludesFindsAlternative(l, FromWords, 0);
    var q := Trim(SecondSegment(l, FromWords));
    match FirstMatch(recent, SenderField, q, 0)
    case Some(i) => DeleteTarget(recent[i])
    case None => Reply(NoSuchSender(q))
  }

  /** The subject strategy: the trimmed text after the first "about" or "subject", up to the
      next one; `None` when no subject contains it, so that the caller falls through. */
  function DeleteBySubject(l: string, recent: seq<Email>): (r: Option<Decision>)
    requires AnyIncluded(l, SubjectWords)
    ensures r.Some? ==>
      exists i :: 0 <= i < |recent| && r.value == ConfirmDelete(recent[i].id, recent[i].subject)
  {
    AnyIncludedFinds(l, SubjectWords);
    var q := Trim(SecondSegment(l, SubjectWords));
    match FirstMatch(recent, SubjectField, q, 0)
    case Some(i) => Some(DeleteTarget(recent[i]))
    case None => None
  }

  /** The delete branch: ordinal first, then the text after "from", then the text after
      "about" or "subject", then the generic reply. */
  function ResolveDelete(l: string, recent: seq<Email>): (d: Decision)
    ensures d.ConfirmDelete? || d.Reply?
    ensures d.Reply? ==> DeleteReply(d.text)
    ensures d.ConfirmDelete? ==>
      exists i :: 0 <= i < |recent| && d == ConfirmDelete(recent[i].id, recent[i].subject)
  {
    match OrdinalDigits(l)
    case Some(digits) => DeleteByOrdinal(digits, recent)
    case None => DeleteByText(l, recent)
  }

  /** With no ordinal: the text after "from", then the text after "about" or "subject", then
      the generic reply. */
  function DeleteByText(l: string, recent: seq<Email>): (d: Decision)
    ensures d.ConfirmDelete? || d.Reply?
    ensures d.Reply? ==> DeleteReply(d.text)
    ensures d.ConfirmDelete? ==>
      exists i :: 0 <= i < |recent| && d == ConfirmDelete(recent[i].id, recent[i].subject)
  {
    if Includes(l, "from") then DeleteBySender(l, recent)
    else if AnyIncluded(l, SubjectWords) then
      match DeleteBySubject(l, recent)
      case Some(d) => d
      case None => Reply(UnsureWhichDelete)
    else Reply(UnsureWhichDelete)
  }

  // ---------------------------------------------------------------- search

  /** The search keyword: the command with every stop word cut out, then trimmed. */
  function SearchKeyword(l: string): (r: string)
    ensures |r| <= |l|
    ensures r != [] ==> !IsSpace(r[0]) && !IsSpace(r[|r| - 1])
  {
    Trim(StripStopWords(l))
  }

  /** The search branch: the prompt when the keyword is empty, otherwise the list of matching
      records, or word that there are none. */
  function ResolveSearch(l: string, recent: seq<Email>): (d: Decision)
    ensures d.EmailList? || d.Reply?
    ensures d.Reply? ==> d.text == AskSearchTerm || d.text.NothingFound?
    ensures d.EmailList? ==> d.emails != [] && IsSubsequence(d.emails, recent)
    ensures d.EmailList? ==> forall e :: e in d.emails ==> SearchMatches(e, SearchKeyword(l))
  {
    var kw := SearchKeyword(l);
    if kw == [] then Reply(AskSearchTerm)
    else
      var results := SearchResults(recent, kw);
      SearchResultsSubsequence(recent, kw);
      if |results| > 0 then EmailList(Found(|results|, kw), results)
      else Reply(NothingFound(kw))
  }

  // ---------------------------------------------------------------- the interpreter

  /** `handleCommand` after its guard: the command is lower-cased, not trimmed, and decided on. */
  function Interpret(command: string, recent: seq<Email>): (d: Decision)
    ensures d.ConfirmDelete? ==>
      exists i :: 0 <= i < |recent| && d == ConfirmDelete(recent[i].id, recent[i].subject)
    ensures d.EmailList? ==> d.emails != [] && IsSubsequence(d.emails, recent)
  {
    Decide(Lower(command), recent)
  }

  /** The chain of keyword rules on the lower-cased command `l`. */
  function Decide(l: string, recent: seq<Email>): (d: Decision)
    ensures d.ConfirmDelete? ==>
      exists i :: 0 <= i < |recent| && d == ConfirmDelete(recent[i].id, recent[i].subject)
    ensures d.EmailList? ==> d.emails != [] && IsSubsequence(d.emails, recent)
  {
    Dispatch(Classify(l), l, recent)
  }

  /** The action each intent takes. */
  function Dispatch(intent: Option<Intent>, l: string, recent: seq<Email>): (d: Decision)
    ensures d.ConfirmDelete? ==>
      exists i :: 0 <= i < |recent| && d == ConfirmDelete(recent[i].id, recent[i].subject)
    ensures d.EmailList? ==> d.emails != [] && IsSubsequence(d.emails, recent)
    ensures d == Reply(NotUnderstood) <==> intent.None?
  {
    match intent
    case Some(Help) => ShowHelp
    case Some(Group) => SmartGroup
    case Some(Delete) => ResolveDelete(l, recent)
    case Some(Search) => ResolveSearch(l, recent)
    case Some(Read) => FetchInbox
    case None => Reply(NotUnderstood)
  }

  /** The delete rule hands the command to the delete branch. */
  lemma DecideDelete(l: string, recent: seq<Email>)
    requires Reaches(l, 2)
    ensures Decide(l, recent) == ResolveDelete(l, recent)
  {
    ClassifyFirst(l, 2);
    DecideOnDelete(l, recent);
  }

  /** The search rule hands the command to the search branch. */
  lemma DecideSearch(l: string, recent: seq<Email>)
    requires Reaches(l, 3)
    ensures Decide(l, recent) == ResolveSearch(l, recent)
  {
    ClassifyFirst(l, 3);
    DecideOnSearch(l, recent);
  }

  lemma DecideOnDelete(l: string, recent: seq<Email>)
    requires Classify(l) == Some(Delete)
    ensures Decide(l, recent) == ResolveDelete(l, recent)
  {
    assert Decide(l, recent) == Dispatch(Some(Delete), l, recent);
  }

  lemma DecideOnSearch(l: string, recent: seq<Email>)
    requires Classify(l) == Some(Search)
    ensures Decide(l, recent) == ResolveSearch(l, recent)
  {
    assert Decide(l, recent) == Dispatch(Some(Search), l, recent);
  }

  /** Help is chosen exactly when a help word is included. */
  lemma HelpIff(l: string, recent: seq<Email>)
    ensures Decide(l, recent) == ShowHelp <==> AnyIncluded(l, HelpWords)
  {
    ClassifyFirst(l, 0);
  }

  /** A help word anywhere, in any case, whatever else the command says, opens the guide:
      "helpful", "Delete HELP" and "find the guide" all do. */
  lemma HelpAnywhere(a: string, w: string, b: string, recent: seq<Email>)
    requires Lower(w) in HelpWords
    ensures Interpret(a + w + b, recent) == ShowHelp
  {
    IncludesLowered(a, w, b);
    var l := Lower(a + w + b);
    if Lower(w) == HelpWords[0] {
      assert Includes(l, HelpWords[0]);
    } else if Lower(w) == HelpWords[1] {
      assert Includes(l, HelpWords[1]);
    } else {
      assert Includes(l, HelpWords[2]);
    }
    HelpIff(l, recent);
  }

  /** Smart grouping is chosen exactly when its rule fires. */
  lemma GroupIff(l: string, recent: seq<Email>)
    ensures Decide(l, recent) == SmartGroup <==> Reaches(l, 1)
  {
    ClassifyFirst(l, 1);
  }

  /** The inbox is fetched exactly when the read rule fires, after every earlier rule failed. */
  lemma ReadIff(l: string, recent: seq<Email>)
    ensures Decide(l, recent) == FetchInbox <==> Reaches(l, 4)
  {
    ClassifyFirst(l, 4);
  }

  /** The "tuned to manage your inbox" reply comes exactly when no rule fires. */
  lemma UnknownIff(l: string, recent: seq<Email>)
    ensures Decide(l, recent) == Reply(NotUnderstood) <==>
      forall g :: 0 <= g < |Rules| ==> !AnyIncluded(l, Rules[g].words)
  {
    ClassifyNone(l);
  }

  // ---------------------------------------------------------------- the delete branch

  /** Where the text after a "from" ends: at the next "from" at or after `from`, or at the end
      of the command. */
  function NextFromOrEnd(l: string, from: nat): (e: nat)
    requires from <= |l|
    ensures from <= e <= |l|
    ensures forall j :: from <= j < e ==> !OccursAt(l, "from", j)
    ensures e == |l| || OccursAt(l, "from", e)
  {
    match IndexOf(l, "from", from)
    case Some(j) => j
    case None => |l|
  }

  /** `split("from")[1]` when the first "from" starts at `k`. */
  lemma FromSegment(l: string, k: nat)
    requires OccursAt(l, "from", k)
    requires forall j :: 0 <= j < k ==> !OccursAt(l, "from", j)
    ensures Includes(l, "from") && SearchAlternatives(l, FromWords, 0).Some?
    ensures SecondSegment(l, FromWords) == l[k + 4..NextFromOrEnd(l, k + 4)]
  {
    IncludesAt(l, "from", k);
    assert FromWords[0] == "from";
    SecondSegmentExact(l, FromWords, k, 0, NextFromOrEnd(l, k + 4));
  }

  /** At one position at most one of "about" and "subject" begins. */
  lemma SubjectWordsExclusive(l: string, k: nat, i: nat)
    requires i < |SubjectWords| && OccursAt(l, SubjectWords[i], k)
    ensures NonEmptyWords(SubjectWords)
    ensures forall i' :: 0 <= i' < |SubjectWords| && OccursAt(l, SubjectWords[i'], k) ==> i' == i
  {
    assert l[k] == SubjectWords[i][0];
  }

  /** An "about" or "subject" at `k` makes the subject strategy applicable. */
  lemma SubjectIncluded(l: string, k: nat, i: nat)
    requires i < |SubjectWords| && OccursAt(l, SubjectWords[i], k)
    ensures AnyIncluded(l, SubjectWords)
  {
    IncludesAt(l, SubjectWords[i], k);
  }

  /** `split(/about|subject/)[1]` when the first separator is `SubjectWords[i]` at `k` and the
      segment after it ends at `e`. */
  lemma SubjectSegment(l: string, k: nat, i: nat, e: nat)
    requires i < |SubjectWords| && OccursAt(l, SubjectWords[i], k)
    requires forall j, i' :: 0 <= j < k && 0 <= i' < |SubjectWords| ==> !OccursAt(l, SubjectWords[i'], j)
    requires k + |SubjectWords[i]| <= e <= |l|
    requires forall j, i' :: k + |SubjectWords[i]| <= j < e && 0 <= i' < |SubjectWords| ==>
      !OccursAt(l, SubjectWords[i'], j)
    requires e == |l| || exists i' :: 0 <= i' < |SubjectWords| && OccursAt(l, SubjectWords[i'], e)
    ensures SearchAlternatives(l, SubjectWords, 0).Some?
    ensures SecondSegment(l, SubjectWords) == l[k + |SubjectWords[i]|..e]
  {
    SubjectWordsExclusive(l, k, i);
    SecondSegmentExact(l, SubjectWords, k, i, e);
  }

  /** Ordinal delete: the leftmost match of the ordinal pattern decides alone.  Its digits,
      read as a decimal number n, select record n - 1 when the list has one; otherwise the
      reply quotes the digits as typed and no other strategy is tried. */
  lemma OrdinalDelete(l: string, recent: seq<Email>, p: nat, digits: string)
    requires Reaches(l, 2)
    requires OrdinalAt(l, p) == Some(digits)
    requires forall q :: 0 <= q < p ==> OrdinalAt(l, q).None?
    ensures AllDigits(digits)
    ensures var n := DecimalValue(digits);
      Decide(l, recent) ==
        if 1 <= n <= |recent| then ConfirmDelete(recent[n - 1].id, recent[n - 1].subject)
        else Reply(NoSuchNumber(digits))
  {
    LeftmostOrdinal(l, p, digits);
    OrdinalDecides(l, recent, digits);
  }

  /** A delete command in which `match` finds digits is decided by those digits alone. */
  lemma OrdinalDecides(l: string, recent: seq<Email>, digits: string)
    requires Reaches(l, 2) && OrdinalDigits(l) == Some(digits)
    ensures AllDigits(digits)
    ensures var n := DecimalValue(digits);
      Decide(l, recent) ==
        if 1 <= n <= |recent| then ConfirmDelete(recent[n - 1].id, recent[n - 1].subject)
        else Reply(NoSuchNumber(digits))
  {
    DecideDelete(l, recent);
    ResolveOrdinal(l, recent, digits);
  }

  /** The ordinal strategy inside the delete branch: once `match` has found digits, they
      alone decide. */
  lemma ResolveOrdinal(l: string, recent: seq<Email>, digits: string)
    requires OrdinalDigits(l) == Some(digits)
    ensures AllDigits(digits)
    ensures var n := DecimalValue(digits);
      ResolveDelete(l, recent) ==
        if 1 <= n <= |recent| then ConfirmDelete(recent[n - 1].id, recent[n - 1].subject)
        else Reply(NoSuchNumber(digits))
  {
    assert ResolveDelete(l, recent) == DeleteByOrdinal(digits, recent);
  }

  /** The leftmost match of the ordinal pattern is the one `match` returns. */
  lemma LeftmostOrdinal(l: string, p: nat, digits: string)
    requires OrdinalAt(l, p) == Some(digits)
    requires forall q :: 0 <= q < p ==> OrdinalAt(l, q).None?
    ensures OrdinalDigits(l) == Some(digits)
  {
    var found := FindOrdinal(l, 0);
    assert found.Some? && found.value.0 == p;
  }

  /** Sender delete: with no ordinal, the query is the trimmed text between the first "from"
      and the next one (or the end), and the target is the first record whose lower-cased
      sender contains it; with none, the reply quotes the query and subjects are not tried. */
  lemma SenderDelete(l: string, recent: seq<Email>, k: nat)
    requires Reaches(l, 2) && NoOrdinal(l)
    requires OccursAt(l, "from", k)
    requires forall j :: 0 <= j < k ==> !OccursAt(l, "from", j)
    ensures var q := Trim(l[k + 4..NextFromOrEnd(l, k + 4)]);
      Decide(l, recent) ==
        match FirstMatch(recent, SenderField, q, 0)
        case Some(i) => ConfirmDelete(recent[i].id, recent[i].subject)
        case None => Reply(NoSuchSender(q))
  {
    DecideDelete(l, recent);
    assert OrdinalDigits(l).None?;
    FromSegment(l, k);
  }

  /** Nothing but white space after the only "from": the query is empty. */
  lemma BlankAfterFrom(l: string, k: nat)
    requires k + 4 <= |l| && AllSpace(l[k + 4..])
    ensures Trim(l[k + 4..NextFromOrEnd(l, k + 4)]) == []
  {
    var e := NextFromOrEnd(l, k + 4);
    assert e == |l|;
    assert l[k + 4..e] == l[k + 4..];
  }

  /** "Delete email from" and the like: an empty query is contained in every sender, so the
      first record of the list is the target. */
  lemma SenderDeleteEmptyQuery(l: string, recent: seq<Email>, k: nat)
    requires Reaches(l, 2) && NoOrdinal(l)
    requires OccursAt(l, "from", k)
    requires forall j :: 0 <= j < k ==> !OccursAt(l, "from", j)
    requires AllSpace(l[k + 4..])
    requires recent != []
    ensures Decide(l, recent) == ConfirmDelete(recent[0].id, recent[0].subject)
  {
    SenderDelete(l, recent, k);
    BlankAfterFrom(l, k);
    EmptyQueryMatchesFirst(recent, SenderField);
  }

  /** Subject delete: with no ordinal and no "from", the query is the trimmed text after the
      first "about" or "subject" up to the next one; the first record whose lower-cased subject
      contains it is the target, and with none the generic reply follows. */
  lemma SubjectDelete(l: string, recent: seq<Email>, k: nat, i: nat, e: nat)
    requires Reaches(l, 2) && NoOrdinal(l) && !Includes(l, "from")
    requires i < |SubjectWords| && OccursAt(l, SubjectWords[i], k)
    requires forall j, i' :: 0 <= j < k && 0 <= i' < |SubjectWords| ==> !OccursAt(l, SubjectWords[i'], j)
    requires k + |SubjectWords[i]| <= e <= |l|
    requires forall j, i' :: k + |SubjectWords[i]| <= j < e && 0 <= i' < |SubjectWords| ==>
      !OccursAt(l, SubjectWords[i'], j)
    requires e == |l| || exists i' :: 0 <= i' < |SubjectWords| && OccursAt(l, SubjectWords[i'], e)
    ensures var q := Trim(l[k + |SubjectWords[i]|..e]);
      Decide(l, recent) ==
        match FirstMatch(recent, SubjectField, q, 0)
        case Some(j) => ConfirmDelete(recent[j].id, recent[j].subject)
        case None => Reply(UnsureWhichDelete)
  {
    DecideDelete(l, recent);
    assert OrdinalDigits(l).None?;
    SubjectIncluded(l, k, i);
    SubjectSegment(l, k, i, e);
  }

  /** With no ordinal, no "from", no "about" and no "subject", no record is picked. */
  lemma GenericDelete(l: string, recent: seq<Email>)
    requires Reaches(l, 2) && NoOrdinal(l)
    requires !Includes(l, "from") && !AnyIncluded(l, SubjectWords)
    ensures Decide(l, recent) == Reply(UnsureWhichDelete)
  {
    DecideDelete(l, recent);
    assert OrdinalDigits(l).None?;
  }

  // ---------------------------------------------------------------- the search branch

  /** A search whose keyword is empty once the stop words are gone asks what to look for. */
  lemma SearchEmpty(l: string, recent: seq<Email>)
    requires Reaches(l, 3)
    requires SearchKeyword(l) == []
    ensures Decide(l, recent) == Reply(AskSearchTerm)
  {
    DecideSearch(l, recent);
  }

  /** A search with a keyword lists exactly the records whose lower-cased sender, subject or
      summary contains it, in list order and with their number in the text; when there are
      none it says so, quoting the keyword. */
  lemma SearchOutcome(l: string, recent: seq<Email>)
    requires Reaches(l, 3)
    requires SearchKeyword(l) != []
    ensures var kw := SearchKeyword(l);
      var results := SearchResults(recent, kw);
      Decide(l, recent) ==
        if results != [] then EmailList(Found(|results|, kw), results)
        else Reply(NothingFound(kw))
  {
    DecideSearch(l, recent);
  }
}
