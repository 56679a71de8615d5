/**
 * The chat component's state and the operations that change it: appending to the
 * message log, handling a typed command, the response side of reading the inbox
 * and of smart grouping, and the reset on logout.  Requests to the backend are
 * not made here: a command that needs one leaves `loading` set, and the response
 * arrives later as an input value of `CompleteFetch` or `CompleteCategorize`.
 */
module Assistant {
  import opened Seqs
  import opened Text
  import opened Directory
  import opened Interpreter

  datatype Role = User | Bot

  /** One group of the smart-grouping response, shown as a card. */
  datatype CategoryGroup = CategoryGroup(category: string, summary: string, emails: seq<Email>)

  /** The `type` and `data` of a message: plain text, an email list or a category list. */
  datatype Payload = PlainText | EmailListData(emails: seq<Email>) | CategoryListData(groups: seq<CategoryGroup>)

  datatype Message = Message(role: Role, content: string, payload: Payload)

  /** The body of the read-emails response (each field may be absent), or a request that failed. */
  datatype ReadResponse =
    | Received(emails: Option<seq<Email>>, currentUser: Option<string>, error: Option<string>)
    | ReadFailed

  /** The body of the categorize response, or a request that failed. */
  datatype CategorizeResponse = Categorized(groups: Option<seq<CategoryGroup>>) | CategorizeFailed

  // ---------------------------------------------------------------- replies to a command

  /** A command goes through the guard when it is not blank and no request is pending. */
  predicate Accepts(command: string, loading: bool)
    ensures Accepts(command, loading) <==> !loading && exists i :: 0 <= i < |command| && !IsSpace(command[i])
  {
    Trim(command) != [] && !loading
  }

  /** The bot messages a decision appends on its own. */
  function BotReplies(d: Decision): (r: seq<Message>)
    ensures |r| <= 1
    ensures forall m :: m in r ==> m.role == Bot
    ensures r == [] <==> d.SmartGroup? || d.ConfirmDelete? || d.FetchInbox?
    ensures forall m :: m in r ==> (m.payload.EmailListData? <==> d.EmailList?)
    ensures d.EmailList? ==> r == [Message(Bot, Render(d.text), EmailListData(d.emails))]
    ensures d.Reply? ==> r == [Message(Bot, Render(d.text), PlainText)]
    ensures d.ShowHelp? ==> r == [Message(Bot, Render(OpenedGuide), PlainText)]
  {
    match d
    case ShowHelp => [Message(Bot, Render(OpenedGuide), PlainText)]
    case SmartGroup => []
    case ConfirmDelete(_, _) => []
    case Reply(t) => [Message(Bot, Render(t), PlainText)]
    case EmailList(t, es) => [Message(Bot, Render(t), EmailListData(es))]
    case FetchInbox => []
  }

  /** The decisions that leave a request pending. */
  predicate AwaitsResponse(d: Decision)
  {
    d.SmartGroup? || d.FetchInbox?
  }

  /** Everything an accepted command appends: the user's text as typed, then the bot's reply. */
  function Transcript(command: string, d: Decision): (r: seq<Message>)
    ensures 1 <= |r| <= 2
    ensures r[0] == Message(User, command, PlainText)
    ensures forall i :: 1 <= i < |r| ==> r[i].role == Bot
  {
    [Message(User, command, PlainText)] + BotReplies(d)
  }

  /** Any command containing a help word, in any case, is answered with the guide, whatever
      else it says. */
  lemma HelpTranscript(a: string, w: string, b: string, recent: seq<Email>)
    requires Lower(w) in HelpWords
    ensures Transcript(a + w + b, Interpret(a + w + b, recent)) ==
      [Message(User, a + w + b, PlainText), Message(Bot, Render(OpenedGuide), PlainText)]
  {
    HelpAnywhere(a, w, b, recent);
  }

  // ---------------------------------------------------------------- replies to a fetch

  /** `current_user || "User"`: an absent or empty name becomes "User". */
  function UserName(currentUser: Option<string>): (r: string)
    ensures r != []
    ensures currentUser.Some? && currentUser.value != [] ==> r == currentUser.value
    ensures currentUser.None? || currentUser.value == [] ==> r == "User"
  {
    match currentUser
    case Some(name) => if name != [] then name else "User"
    case None => "User"
  }

  const GreetingTail: string := "! \U{1F44B} \n\nI'm your AI Email Assistant. I can help you **read your recent messages**, **search for specific topics**, **draft replies**, and **delete emails**."

  /** The greeting addresses the user by name. */
  function Greeting(name: string): (r: string)
    ensures |r| > 3 + |name|
    ensures r[..3 + |name|] == "Hi " + name
  {
    var g := "Hi " + name + GreetingTail;
    assert g == ("Hi " + name) + GreetingTail;
    g
  }

  const FoundOnLoadHead: string := "I also checked your inbox and found "
  const FoundOnLoadTail: string := " recent emails. Here is the summary:"
  const EmptyOnLoadText: string := "I checked your inbox, but I didn't find any new emails right now."
  const RefreshedHead: string := "Inbox refreshed. Here are your latest "
  const RefreshedTail: string := " emails:"
  const NothingNewText: string := "No new emails found."

  /** The second message of the first load: the list, or word that the inbox is empty. */
  function FirstLoadReport(es: seq<Email>): (m: Message)
    ensures m.role == Bot
    ensures m.payload.EmailListData? <==> es != []
    ensures m.payload.EmailListData? ==> m.payload.emails == es
    ensures es == [] ==> m == Message(Bot, EmptyOnLoadText, PlainText)
    ensures es != [] ==> |m.content| > |FoundOnLoadHead| && m.content[..|FoundOnLoadHead|] == FoundOnLoadHead
  {
    if |es| > 0 then
      Message(Bot, FoundOnLoadHead + NatToString(|es|) + FoundOnLoadTail, EmailListData(es))
    else
      Message(Bot, EmptyOnLoadText, PlainText)
  }

  /** The message of a refresh the user asked for. */
  function RefreshReport(es: seq<Email>): (m: Message)
    ensures m.role == Bot
    ensures m.payload.EmailListData? <==> es != []
    ensures m.payload.EmailListData? ==> m.payload.emails == es
    ensures es == [] ==> m == Message(Bot, NothingNewText, PlainText)
    ensures es != [] ==> |m.content| > |RefreshedHead| && m.content[..|RefreshedHead|] == RefreshedHead
  {
    if |es| > 0 then
      Message(Bot, RefreshedHead + NatToString(|es|) + RefreshedTail, EmailListData(es))
    else
      Message(Bot, NothingNewText, PlainText)
  }

  /** The bot messages a response carrying emails appends: a greeting and a report when the
      log was empty, a report when the user asked, and nothing on a background fetch. */
  function FetchReplies(logWasEmpty: bool, isAutoFetch: bool, name: string, es: seq<Email>): (r: seq<Message>)
    ensures |r| == if logWasEmpty then 2 else if isAutoFetch then 0 else 1
    ensures forall m :: m in r ==> m.role == Bot
    ensures logWasEmpty ==> r[0] == Message(Bot, Greeting(name), PlainText)
    ensures forall m :: m in r ==> m.payload == PlainText || m.payload == EmailListData(es)
    ensures (exists m :: m in r && m.payload.EmailListData?) <==> es != [] && (logWasEmpty || !isAutoFetch)
    ensures logWasEmpty ==> r[1] == FirstLoadReport(es)
    ensures !logWasEmpty && !isAutoFetch ==> r == [RefreshReport(es)]
  {
    if logWasEmpty then [Message(Bot, Greeting(name), PlainText), FirstLoadReport(es)]
    else if !isAutoFetch then [RefreshReport(es)]
    else []
  }

  /** A report that lists emails states how many it lists. */
  lemma ReportCounts(es: seq<Email>)
    requires es != []
    ensures FirstLoadReport(es).content[..|FoundOnLoadHead| + |NatToString(|es|)|] == FoundOnLoadHead + NatToString(|es|)
    ensures RefreshReport(es).content[..|RefreshedHead| + |NatToString(|es|)|] == RefreshedHead + NatToString(|es|)
    ensures DecimalValue(NatToString(|es|)) == |es|
  {
    var n := NatToString(|es|);
    var p1 := FoundOnLoadHead;
    var c1 := FirstLoadReport(es).content;
    assert c1 == (p1 + n) + c1[|p1| + |n|..];
    var p2 := RefreshedHead;
    var c2 := RefreshReport(es).content;
    assert c2 == (p2 + n) + c2[|p2| + |n|..];
  }

  /** The first load and a refresh never word their report alike, with or without emails. */
  lemma ReportsDiffer(es: seq<Email>)
    ensures FirstLoadReport(es).content != RefreshReport(es).content
  {
    if es != [] {
      assert FirstLoadReport(es).content[1] == FoundOnLoadHead[1];
      assert RefreshReport(es).content[1] == RefreshedHead[1];
    }
  }

  const GroupedText: string := "I've analyzed your last 20 emails and grouped them for you:"

  // ---------------------------------------------------------------- the component

  class ChatState {
    var messages: seq<Message>
    var input: string
    var showHelp: bool
    var loading: bool
    var recentEmails: seq<Email>
    var currentUser: string
    var isLoggedIn: bool
    var isAppLoading: bool

    /** The initial state: empty log and list, signed out, the first fetch still pending. */
    constructor ()
      ensures messages == [] && input == "" && !showHelp && !loading
      ensures recentEmails == [] && currentUser == "" && !isLoggedIn && isAppLoading
    {
      messages := [];
      input := "";
      showHelp := false;
      loading := false;
      recentEmails := [];
      currentUser := "";
      isLoggedIn := false;
      isAppLoading := true;
    }

    /** `addMessage`: appends one message and changes nothing else. */
    method AddMessage(role: Role, content: string, payload: Payload)
      modifies this
      ensures messages == old(messages) + [Message(role, content, payload)]
      ensures input == old(input) && showHelp == old(showHelp) && loading == old(loading)
      ensures recentEmails == old(recentEmails) && currentUser == old(currentUser)
      ensures isLoggedIn == old(isLoggedIn) && isAppLoading == old(isAppLoading)
    {
      messages := messages + [Message(role, content, payload)];
    }

    /** `handleLogout` after the request: the session is cleared. */
    method Logout()
      modifies this
      ensures !isLoggedIn && messages == [] && currentUser == "" && recentEmails == []
      ensures input == old(input) && showHelp == old(showHelp) && loading == old(loading)
      ensures isAppLoading == old(isAppLoading)
    {
      isLoggedIn := false;
      messages := [];
      currentUser := "";
      recentEmails := [];
    }

    /** The mount effect when the login redirect reports an error: the loading screen goes
        away and nothing is fetched. */
    method LoginFailed()
      modifies this
      ensures !isAppLoading
      ensures messages == old(messages) && input == old(input) && showHelp == old(showHelp)
      ensures loading == old(loading) && recentEmails == old(recentEmails)
      ensures currentUser == old(currentUser) && isLoggedIn == old(isLoggedIn)
    {
      isAppLoading := false;
    }

    /** The guard of `fetchEmails`: nothing starts while a request is pending; a fetch the
        user asked for sets `loading`, a background one does not. */
    method BeginFetch(isAutoFetch: bool) returns (started: bool)
      modifies this
      ensures started == !old(loading)
      ensures loading == (old(loading) || !isAutoFetch)
      ensures messages == old(messages) && input == old(input) && showHelp == old(showHelp)
      ensures recentEmails == old(recentEmails) && currentUser == old(currentUser)
      ensures isLoggedIn == old(isLoggedIn) && isAppLoading == old(isAppLoading)
    {
      if loading {
        return false;
      }
      if !isAutoFetch {
        loading := true;
      }
      started := true;
    }

    /** `handleCommand`: a blank command, or any command while a request is pending, changes
        nothing.  Otherwise the user's text is appended, the input box is cleared, and the
        decision is applied: its reply appended, the guide opened, or a request left pending.
        The list of recent emails is never changed here. */
    method HandleCommand(command: string) returns (d: Option<Decision>)
      modifies this
      ensures !Accepts(command, old(loading)) ==>
        d.None? && messages == old(messages) && input == old(input) &&
        showHelp == old(showHelp) && loading == old(loading)
      ensures Accepts(command, old(loading)) ==>
        d == Some(Interpret(command, old(recentEmails))) &&
        messages == old(messages) + Transcript(command, d.value) &&
        input == "" &&
        showHelp == (old(showHelp) || d.value.ShowHelp?) &&
        loading == AwaitsResponse(d.value)
      ensures recentEmails == old(recentEmails) && currentUser == old(currentUser)
      ensures isLoggedIn == old(isLoggedIn) && isAppLoading == old(isAppLoading)
    {
      if Trim(command) == [] || loading {
        return None;
      }
      AddMessage(User, command, PlainText);
      input := "";
      var decision := Interpret(command, recentEmails);
      Apply(decision);
      d := Some(decision);
    }

    /** What `handleCommand` does with a decision once the user's text is in the log: the
        reply is appended, help opens the guide, grouping and reading leave a request
        pending, and a delete is handed on for confirmation without a message. */
    method Apply(decision: Decision)
      requires !loading
      modifies this
      ensures messages == old(messages) + BotReplies(decision)
      ensures showHelp == (old(showHelp) || decision.ShowHelp?)
      ensures loading == AwaitsResponse(decision)
      ensures input == old(input) && recentEmails == old(recentEmails) && currentUser == old(currentUser)
      ensures isLoggedIn == old(isLoggedIn) && isAppLoading == old(isAppLoading)
    {
      match decision {
        case ShowHelp =>
          showHelp := true;
          AddMessage(Bot, Render(OpenedGuide), PlainText);
        case SmartGroup =>
          loading := true;
        case ConfirmDelete(_, _) =>
        case Reply(t) =>
          AddMessage(Bot, Render(t), PlainText);
        case EmailList(t, es) =>
          AddMessage(Bot, Render(t), EmailListData(es));
        case FetchInbox =>
          var started := BeginFetch(false);
      }
    }

    /** The response side of `fetchEmails`.  `logWasEmpty` is whether the log was empty in
        the render that started the fetch.  A response carrying emails (even none) signs the
        user in under the reported name, replaces the list wholesale and appends the replies
        of `FetchReplies`; a `not_authenticated` error only signs the user out; anything else
        changes nothing but the two loading flags, which always end false. */
    method CompleteFetch(response: ReadResponse, isAutoFetch: bool, logWasEmpty: bool)
      modifies this
      ensures !loading && !isAppLoading
      ensures input == old(input) && showHelp == old(showHelp)
      ensures response.Received? && response.emails.Some? ==>
        var name := UserName(response.currentUser);
        currentUser == name && isLoggedIn && recentEmails == response.emails.value &&
        messages == old(messages) + FetchReplies(logWasEmpty, isAutoFetch, name, response.emails.value)
      ensures response.Received? && response.emails.None? && response.error == Some("not_authenticated") ==>
        !isLoggedIn && messages == old(messages) &&
        recentEmails == old(recentEmails) && currentUser == old(currentUser)
      ensures !(response.Received? && (response.emails.Some? || response.error == Some("not_authenticated"))) ==>
        isLoggedIn == old(isLoggedIn) && messages == old(messages) &&
        recentEmails == old(recentEmails) && currentUser == old(currentUser)
    {
      if response.Received? {
        match response.emails {
          case Some(es) =>
            var name := UserName(response.currentUser);
            currentUser := name;
            isLoggedIn := true;
            recentEmails := es;
            messages := messages + FetchReplies(logWasEmpty, isAutoFetch, name, es);
          case None =>
            if response.error == Some("not_authenticated") {
              isLoggedIn := false;
            }
        }
      }
      loading := false;
      isAppLoading := false;
    }

    /** The response side of `fetchCategorizedEmails`: a response carrying groups (even none)
        appends them as a category list; the request is no longer pending either way. */
    method CompleteCategorize(response: CategorizeResponse)
      modifies this
      ensures !loading
      ensures response.Categorized? && response.groups.Some? ==>
        messages == old(messages) + [Message(Bot, GroupedText, CategoryListData(response.groups.value))]
      ensures !(response.Categorized? && response.groups.Some?) ==> messages == old(messages)
      ensures input == old(input) && showHelp == old(showHelp)
      ensures recentEmails == old(recentEmails) && currentUser == old(currentUser)
      ensures isLoggedIn == old(isLoggedIn) && isAppLoading == old(isAppLoading)
    {
      if response.Categorized? && response.groups.Some? {
        AddMessage(Bot, GroupedText, CategoryListData(response.groups.value));
      }
      loading := false;
    }
  }
}
