# AI email assistant: chat command interpreter

This project models the chat side of the email assistant's web client. It covers how a typed
command is interpreted (`handleCommand` in `frontend/src/App.jsx`) and the component state the
command reads and writes. That state is the message log, the input box, the guide flag, the
pending-request flag, the list of recent emails, the user's name and the session flags.

The interpreter is a chain of keyword rules with early exits:
help, then smart grouping, then delete, then search, then read, then an "unknown" reply. Each
test is a raw substring test on the lower-cased command. The command is not trimmed first, so
"helpful" asks for help.

- A delete resolves its target from the list in a fixed order:
  - an ordinal (`number 3`, `no. 3`, `#3`);
  - then the text between the first and second "from";
  - then the text between the first "about" or "subject" and the next one (or the end).
- A search cuts out every stop-word substring, trims what remains, and filters the list on
  sender, subject and summary.

The model is in seven modules:

| file | module | contents |
|---|---|---|
| seqs.dfy | Seqs | `Option`, subsequences |
| text.dfy | Text | ASCII `toLowerCase`, JavaScript `trim`, `includes`/`indexOf`, a leftmost match of an alternation of words, `split(...)[1]`, decimal numerals |
| extract.dfy | Extract | the ordinal pattern ("number", "no.", "no" or "#", white space, digits) and the global removal of the stop words find, search, show, emails, email, from, about, for and me |
| directory.dfy | Directory | the email record, `find` over sender or subject, the search filter |
| interpreter.dfy | Interpreter | `Decision`, the rule table, the delete and search branches, `Interpret` and the lemmas about each branch |
| assistant.dfy | Assistant | class `ChatState`: `handleCommand`, `addMessage`, the response side of `fetchEmails` and `fetchCategorizedEmails`, the logout reset and the failed-login path of the mount effect |
| scenarios.dfy | Scenarios | a few commands followed from the typed text to the decision: two of the guide's hints as written ("Delete email number 1", "Find emails from Amazon") and lower-case variants ("delete email number 2", "delete email number 9", "search") |

The interpreter is pure. `Interpret(command, recent)` returns a `Decision`. Work that goes
over the network becomes an abstract request in that decision:

- `SmartGroup` for the categorize call;
- `ConfirmDelete(id, subject)` for the confirmation dialog and the delete call;
- `FetchInbox` for reading the inbox.

The component is a class whose methods change its fields. A response from the backend is an
input value of `CompleteFetch` or `CompleteCategorize`.

Each bot reply is chosen as a `BotText` value. `Render` gives its exact wording.

The ordinal and stop-word patterns follow the regular-expression semantics of the code:

- leftmost match;
- alternatives tried in order at each position, so `emails` before `email`, and `no.` before
  `no`;
- greedy digits, kept as typed;
- a single left-to-right pass of the removal, which cuts substrings: "some" loses its "me".

The search keyword is sometimes described as the command without its stop words, as if whole
words were removed. The code removes substrings, including from inside other words, and the
model follows the code.

## Model

| member | source | states |
|---|---|---|
| Text.LowerChar | frontend/src/App.jsx:54 | A-Z move to a-z, every other character is kept, and no result is an upper-case letter |
| Text.Lower | frontend/src/App.jsx:54 | the lower-cased command has the length of the command |
| Text.LowerAt | frontend/src/App.jsx:54 | each character is lower-cased on its own: A-Z map to a-z, every other character is kept |
| Text.LowerIdempotent | frontend/src/App.jsx:54 | a lower-cased string has no upper-case letter and lower-casing it again changes nothing |
| Text.LowerNoUpper | frontend/src/App.jsx:54 | a command with no capital letter is its own lower-case form |
| Text.IncludesLowered | frontend/src/App.jsx:54-56 | a word typed anywhere in a command, in any case, is included in the lower-cased command as its own lower-case form |
| Text.Trim | frontend/src/App.jsx:50 | the trimmed string is empty exactly when the input is all white space; otherwise it neither starts nor ends with white space, and it is the input with leading and trailing white space cut off |
| Text.TrimExact | frontend/src/App.jsx:81 | white space around a core that neither starts nor ends with white space trims to that core |
| Text.IndexOf | frontend/src/App.jsx:81 | the position found is the first occurrence from the start position on, and none means no occurrence at all |
| Text.Includes | frontend/src/App.jsx:56 | `includes` holds exactly when the word occurs at some position |
| Text.MissingLetter | frontend/src/App.jsx:56 | a word with a letter the command lacks is not included in it |
| Text.NoneIncluded | frontend/src/App.jsx:56 | a rule whose every word lacks a letter in the command does not fire |
| Text.SearchAlternatives | frontend/src/App.jsx:93 | the match of an alternation is the leftmost position where some word occurs, and its length is that word's length; none means no word occurs anywhere |
| Text.SearchAlternativesStep | frontend/src/App.jsx:106 | at each position the scan takes the first alternative written that occurs there, and moves on when none does |
| Text.SecondSegment | frontend/src/App.jsx:81 | segment [1] of a split starts right after the first separator, contains no separator, and ends at the end of the string or where the next separator starts |
| Text.SecondSegmentExact | frontend/src/App.jsx:93 | those three facts pin segment [1] down exactly |
| Text.NatToString | frontend/src/App.jsx:120 | the count printed in a reply is a digit string with no leading zero that reads back as the count |
| Text.DecimalValue | frontend/src/App.jsx:70 | `parseInt` of a digit string: each further digit multiplies the value read so far by ten and adds its own value (no contract of its own; see the next three rows) |
| Text.ZeroValue | frontend/src/App.jsx:70-71 | a digit string reads as 0 exactly when it is all zeros, so "number 0" and "number 00" name no entry of the list |
| Text.LeadingZero | frontend/src/App.jsx:70 | a leading zero does not change the value: "number 02" names the second entry |
| Text.OneDigit | frontend/src/App.jsx:70 | a single digit reads as its own value |
| Extract.OrdinalAt | frontend/src/App.jsx:68 | a match of the ordinal pattern at a position captures a non-empty digit string |
| Extract.FindOrdinal | frontend/src/App.jsx:68 | the ordinal match found is the leftmost one |
| Extract.OrdinalDigits | frontend/src/App.jsx:68-69 | `match` succeeds exactly when the pattern matches at some position, and group 1 is all digits |
| Extract.OrdinalStart | frontend/src/App.jsx:68 | a match of the ordinal pattern starts at an "n" or a "#" |
| Extract.NoOrdinalBefore | frontend/src/App.jsx:68 | text with no "n" and no "#" holds no start of a match, whatever follows it |
| Extract.OrdinalSpellings | frontend/src/App.jsx:68 | "number", "no.", "no" and "#", followed by any white space and digits and then a non-digit or the end, capture exactly those digits where the keyword starts, whatever text comes before it |
| Extract.OrdinalKeyword | frontend/src/App.jsx:68 | at each keyword the pattern reduces to white space and digits right after it, provided a bare "no" is not followed by a dot |
| Extract.OrdinalAfterNoDot | frontend/src/App.jsx:68 | after "no." the optional dot is taken before the white space and digits are matched |
| Extract.OrdinalAfterNo | frontend/src/App.jsx:68 | "no" not followed by a dot goes straight to the white space and digits |
| Extract.RemoveWords | frontend/src/App.jsx:106 | a global `replace` with "" never makes the text longer |
| Extract.RemoveWordsLeftmost | frontend/src/App.jsx:106 | the pass copies everything before the leftmost match of the alternation, drops the word matched there, and carries on right after it |
| Extract.RemoveWordsSubsequence | frontend/src/App.jsx:106 | a removal pass only deletes characters: what is left is a subsequence of the input |
| Extract.RemoveWordsIdentity | frontend/src/App.jsx:106 | a command containing no stop word is left as it is |
| Extract.StripStopWords | frontend/src/App.jsx:106 | the command with the stop words cut out is no longer than the command |
| Extract.StripStopWordsSubsequence | frontend/src/App.jsx:106 | the keyword before trimming is a subsequence of the command |
| Extract.NoStopWordAt | frontend/src/App.jsx:106 | no stop word starts at a character other than "f", "s", "e", "a" or "m" |
| Extract.StopWordInsideWord | frontend/src/App.jsx:106 | stop words are cut out of the middle of other words: "some" becomes "so" |
| Extract.StopWordSinglePass | frontend/src/App.jsx:106 | the removal is one left-to-right pass: cutting "from" out of "ffromrom" leaves a new "from" that stays |
| Extract.StopWordOrder | frontend/src/App.jsx:106 | alternatives are tried in order at the leftmost position: "emailshow" loses "emails", not "email", and becomes "how" |
| Directory.FirstMatch | frontend/src/App.jsx:82 | `find` returns the first record in list order whose lower-cased field contains the query, and none when no record does |
| Directory.EmptyQueryMatchesFirst | frontend/src/App.jsx:82 | an empty query matches the first record of a non-empty list |
| Directory.SearchMatches | frontend/src/App.jsx:114-116 | a record matches when its lower-cased sender, subject or summary contains the keyword; every record matches the empty keyword |
| Directory.SearchResults | frontend/src/App.jsx:113-117 | the filter keeps a record exactly when its lower-cased sender, subject or summary contains the keyword, with the same number of copies |
| Directory.SearchResultsSubsequence | frontend/src/App.jsx:113-117 | the results keep the order of the list: they are a subsequence of it |
| Directory.SearchResultsEverything | frontend/src/App.jsx:113-117 | the empty keyword keeps the whole list |
| Interpreter.FirstRule | frontend/src/App.jsx:56-129 | the rule chosen is the first one in the table one of whose words is included |
| Interpreter.Classify | frontend/src/App.jsx:56-127 | an intent is chosen exactly when some rule's word is included, and it is the intent of a rule that fires |
| Interpreter.ClassifyFirst | frontend/src/App.jsx:56-129 | precedence: a rule's intent is chosen exactly when that rule matches and no earlier rule does |
| Interpreter.ClassifyNone | frontend/src/App.jsx:127-135 | no intent is chosen exactly when no word of any rule is included |
| Interpreter.Render | frontend/src/App.jsx:58-132 | the replies about a missing number, a missing sender and a search that found nothing quote the digits, the query and the keyword as they are, between fixed texts |
| Interpreter.FoundTextCount | frontend/src/App.jsx:120 | the "I found N emails" reply states the count in decimal and quotes the keyword as it is |
| Interpreter.DeleteByOrdinal | frontend/src/App.jsx:69-77 | a delete chosen by number targets a record of the list |
| Interpreter.DeleteBySender | frontend/src/App.jsx:80-89 | a delete chosen by sender targets a record of the list |
| Interpreter.DeleteBySubject | frontend/src/App.jsx:92-99 | a delete chosen by subject targets a record of the list |
| Interpreter.ResolveDelete | frontend/src/App.jsx:67-102 | the delete branch ends in a confirmation request or one of its own replies (no such number, no such sender, not sure which), and a confirmation names the id and subject of a record of the list |
| Interpreter.DeleteByText | frontend/src/App.jsx:80-101 | with no ordinal, the sender, subject and generic strategies keep those guarantees |
| Interpreter.LeftmostOrdinal | frontend/src/App.jsx:68 | the digits `match` returns are those of the leftmost place where the ordinal pattern matches |
| Interpreter.OrdinalDecides | frontend/src/App.jsx:67-77 | in a delete command, once `match` has found digits, they alone decide between the record they number and the no-such-number reply |
| Interpreter.ResolveOrdinal | frontend/src/App.jsx:69-77 | once the ordinal pattern has matched, its digits alone decide the delete branch |
| Interpreter.SearchKeyword | frontend/src/App.jsx:106 | the keyword is no longer than the command and neither starts nor ends with white space |
| Interpreter.ResolveSearch | frontend/src/App.jsx:105-124 | the search branch ends in a list, the prompt for a search term, or the nothing-found reply; a list is non-empty, in list order, and every record in it matches the keyword |
| Interpreter.Interpret | frontend/src/App.jsx:54-135 | the lower-cased command decides; a delete names a record of the list and a listed result is a non-empty subsequence of it |
| Interpreter.Decide | frontend/src/App.jsx:56-135 | the keyword chain keeps those guarantees |
| Interpreter.Dispatch | frontend/src/App.jsx:56-135 | each intent's action keeps them, and the "not understood" reply comes exactly when there is no intent |
| Interpreter.DecideDelete | frontend/src/App.jsx:67 | once the delete rule fires, the delete branch decides |
| Interpreter.DecideSearch | frontend/src/App.jsx:105 | once the search rule fires, the search branch decides |
| Interpreter.HelpIff | frontend/src/App.jsx:56-60 | help is chosen exactly when "help", "commands" or "guide" is included |
| Interpreter.HelpAnywhere | frontend/src/App.jsx:54-60 | a help word anywhere in a command, in any case ("Delete HELP"), opens the guide whatever other keywords the command has |
| Interpreter.GroupIff | frontend/src/App.jsx:62-65 | smart grouping is chosen exactly when its rule fires |
| Interpreter.ReadIff | frontend/src/App.jsx:127-128 | the inbox is fetched exactly when the read rule fires after every earlier rule failed |
| Interpreter.UnknownIff | frontend/src/App.jsx:129-135 | the "tuned to manage your inbox" reply comes exactly when no word of any rule is included |
| Interpreter.NextFromOrEnd | frontend/src/App.jsx:81 | the text after a "from" ends at the next "from" or at the end of the command |
| Interpreter.FromSegment | frontend/src/App.jsx:81 | `split("from")[1]` is the text between the first and the second "from" |
| Interpreter.SubjectSegment | frontend/src/App.jsx:93 | segment [1] of the split on "about" or "subject" is the text between the first separator and the next one |
| Interpreter.OrdinalDelete | frontend/src/App.jsx:68-77 | with an ordinal, record N-1 is the target when the list has it; otherwise the reply quotes the digits as typed, and no other strategy is tried |
| Interpreter.SenderDelete | frontend/src/App.jsx:80-89 | with no ordinal and a "from", the target is the first record whose sender contains the trimmed query; otherwise the reply quotes the query, and subjects are not tried |
| Interpreter.SenderDeleteEmptyQuery | frontend/src/App.jsx:81-84 | nothing but white space after the only "from" targets the first record of the list |
| Interpreter.SubjectDelete | frontend/src/App.jsx:92-101 | with no ordinal and no "from", the target is the first record whose subject contains the trimmed query after "about" or "subject"; with none, the generic reply follows |
| Interpreter.GenericDelete | frontend/src/App.jsx:101 | with no strategy applicable, the reply is "I'm not sure which email to delete" |
| Interpreter.SearchEmpty | frontend/src/App.jsx:106-111 | a keyword that is empty after stop-word removal and trimming yields the "What should I search for?" prompt and no list |
| Interpreter.SearchOutcome | frontend/src/App.jsx:113-123 | the listed records are exactly the filtered ones, with their number in the reply; with none the reply quotes the keyword |
| Assistant.Accepts | frontend/src/App.jsx:50 | a command goes through exactly when no request is pending and it has a character other than white space |
| Assistant.BotReplies | frontend/src/App.jsx:56-135 | a decision appends at most one bot message; grouping, reading and deleting append none; a reply, the guide or a search result appends exactly its rendered text, and only a search result carries a list |
| Assistant.Transcript | frontend/src/App.jsx:52-135 | an accepted command appends the user's text as typed first, then only bot messages |
| Assistant.HelpTranscript | frontend/src/App.jsx:52-60 | a command with a help word appends itself and the "opened the command guide" reply |
| Assistant.UserName | frontend/src/App.jsx:146 | the name is never empty: the reported name when there is one, "User" otherwise |
| Assistant.Greeting | frontend/src/App.jsx:153 | the greeting opens with "Hi " and the user's name, and goes on after it |
| Assistant.FirstLoadReport | frontend/src/App.jsx:154-159 | the first load's report is a bot message that carries the list exactly when there are emails; with emails its text opens with "I also checked your inbox and found ", with none it is the "didn't find any new emails" text |
| Assistant.RefreshReport | frontend/src/App.jsx:161-166 | a refresh's report is a bot message that carries the list exactly when there are emails; with emails its text opens with "Inbox refreshed. Here are your latest ", with none it is "No new emails found." |
| Assistant.FetchReplies | frontend/src/App.jsx:152-168 | an empty log gets the greeting and then the first-load report, a fetch the user asked for gets the refresh report alone, a background fetch gets nothing; a list is shown exactly when there are emails and something is reported |
| Assistant.ReportCounts | frontend/src/App.jsx:157-164 | both reports state in decimal how many emails they list |
| Assistant.ReportsDiffer | frontend/src/App.jsx:155-167 | the first-load report and the refresh report never have the same text, with or without emails |
| Assistant.ChatState.constructor | frontend/src/App.jsx:9-18 | the initial state: empty log and list, signed out, the first load still pending |
| Assistant.ChatState.AddMessage | frontend/src/App.jsx:45-47 | appends one message and changes nothing else |
| Assistant.ChatState.Logout | frontend/src/App.jsx:42 | signs out and clears the log, the name and the list |
| Assistant.ChatState.LoginFailed | frontend/src/App.jsx:241-243 | a login that came back with an error only takes the loading screen away; nothing is fetched |
| Assistant.ChatState.BeginFetch | frontend/src/App.jsx:139-140 | no fetch starts while a request is pending; one the user asked for sets the pending flag |
| Assistant.ChatState.HandleCommand | frontend/src/App.jsx:49-136 | a blank command, or any command while a request is pending, changes nothing; otherwise the transcript is appended, the input is cleared, the decision is applied, and the list of emails is never changed |
| Assistant.ChatState.Apply | frontend/src/App.jsx:56-134 | the decision's reply is appended, help opens the guide, grouping and reading leave a request pending |
| Assistant.ChatState.CompleteFetch | frontend/src/App.jsx:145-176 | emails sign the user in under the reported name, replace the list and append the fetch replies; `not_authenticated` only signs out; the pending flags always end false |
| Assistant.ChatState.CompleteCategorize | frontend/src/App.jsx:184-190 | groups, even none, are appended as a category list; the request is no longer pending either way |
| Scenarios.DeleteReachedBy | frontend/src/App.jsx:56-67 | a command that says a delete word and no help or grouping word goes to the delete branch |
| Scenarios.SearchReachedBy | frontend/src/App.jsx:56-105 | a command that says a search word and no help, grouping or delete word goes to the search branch |
| Scenarios.LowerCaseVariant | frontend/src/App.jsx:54 | two commands that differ only in the case of their letters are interpreted alike |
| Scenarios.DeleteNumberReaches | frontend/src/App.jsx:56-67 | "delete email number N", for a one-digit N, goes to the delete branch |
| Scenarios.DeleteNumberOrdinal | frontend/src/App.jsx:68 | the only ordinal `match` finds in "delete email number N", for a one-digit N, is N |
| Scenarios.DeleteFirstEmail | frontend/src/App.jsx:67-76 | "delete email number 1" asks to confirm deleting the first listed email, or with an empty list says there is no email number 1 |
| Scenarios.DeleteFirstHint | frontend/src/App.jsx:54-76 | the guide's hint "Delete email number 1", as written, does the same |
| Scenarios.DeleteSecondEmail | frontend/src/App.jsx:67-73 | "delete email number 2" asks to confirm deleting the second listed email |
| Scenarios.DeleteMissingNinth | frontend/src/App.jsx:67-76 | "delete email number 9" with fewer than nine emails listed answers that there is no email number 9 |
| Scenarios.MissingNinthTranscript | frontend/src/App.jsx:52-75 | the chat then shows the command and one bot line that quotes "9" between "I couldn't find email number " and the rest of the fixed text |
| Scenarios.SearchWordReaches | frontend/src/App.jsx:56-105 | "search" goes to the search branch |
| Scenarios.SearchWordKeyword | frontend/src/App.jsx:106 | "search" leaves no keyword |
| Scenarios.SearchAlone | frontend/src/App.jsx:105-111 | "search" alone gets the "What should I search for?" prompt, whatever the list holds |
| Scenarios.FindAmazonReaches | frontend/src/App.jsx:56-105 | "find emails from amazon" goes to the search branch |
| Scenarios.FindAmazonStripped | frontend/src/App.jsx:106 | cutting the stop words out of "find emails from amazon" leaves three spaces and "amazon" |
| Scenarios.FindAmazonKeyword | frontend/src/App.jsx:106 | the keyword of "find emails from amazon" is "amazon" |
| Scenarios.FindFromAmazon | frontend/src/App.jsx:105-123 | "find emails from amazon" lists the records whose sender, subject or summary mentions "amazon", with their number, or says that none does |
| Scenarios.FindAmazonHint | frontend/src/App.jsx:54-123 | the guide's hint "Find emails from Amazon", as written, does the same |

## Left out

- The backend (`backend/main.py`): OAuth sessions, Gmail calls, the AI prompts and the parsing of
  their answers. Responses enter only as values of `ReadResponse` and `CategorizeResponse`.
- The network calls are not made. Reading, grouping and deleting become an abstract request in
  `Decision`, or the `started` result of `BeginFetch`. The logout request is dropped:
  `Logout` models only the reset that follows it.
- Generating a reply draft and sending it (`handleReplyClick`, `handleSendReply`). The model has
  no counterpart for the reply dialog or either request.
- The confirmation dialog, the delete call and their effects (`handleDeleteClick`). The model
  stops at the `ConfirmDelete` request.
- Toast notifications and `setTimeout` delays. A delayed `addMessage` is a plain append, in the
  order the code issues it.
- Message ids taken from `Date.now()`.
- Rendering, dark mode and scrolling.
- Reading the URL on mount. After a successful login, or with no login result in the URL, the
  mount effect calls `fetchEmails(true)`, which is `BeginFetch(true)` followed by
  `CompleteFetch`. When the URL reports a login error, the effect only clears the loading
  screen, which is `LoginFailed`. The toasts and the cleanup of the address bar are not
  modelled.
- Unicode case mapping and Unicode white space. `toLowerCase`, `trim` and `\s` are modelled over
  ASCII.
- The precision limits of `parseInt`. A digit string is read as an unbounded natural number.
- Interleaving of asynchronous handlers. The methods run one after another.
- Assistant.ChatState.HandleCommand: the unknown branch sets `loading` for the second before its
  reply appears. The model appends the reply at once and leaves `loading` false.
- Assistant.ChatState.CompleteFetch: `messages.length` is read from the render that started the
  fetch, not from the current log. The caller passes that fact in as `logWasEmpty`.
- Interpreter.SubjectDelete: the lemma is stated for a given first separator and its end. The
  general case follows from `Text.SecondSegment`, which `Interpreter.DeleteBySubject` uses.
