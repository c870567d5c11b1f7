/** The ZTE driver (utils/zte-http.js): authenticated commands, reading the inbox, awaiting a send. */
module ZteHttp {
  import opened Wrappers
  import opened Utf16
  import opened Splitting
  import opened Hex
  import opened Pdu
  import opened Listing
  import Inbox

  // ----- Commands --------------------------------------------------------------------------------

  /** The commands, by their `goformId`, with what varies in them. */
  datatype Form =
    | SendForm(number: string, body: string)  // SEND_SMS: Number, MessageBody
    | DeleteForm(ids: string)                 // DELETE_SMS: msg_id

  datatype Request = Login | Command(form: Form)

  /** How one HTTP exchange ends: with the result field of its JSON, or with an exception. */
  datatype Exchange = Answered(result: string) | Broken

  datatype Posted = Posted(request: Request, exchange: Exchange)

  function NextExchange(script: seq<Exchange>): (Exchange, seq<Exchange>) {
    if script == [] then (Broken, []) else (script[0], script[1..])
  }

  predicate LoginSucceeded(e: Exchange) {
    e == Answered("0") || e == Answered("4")
  }

  predicate CommandSucceeded(e: Exchange) {
    e == Answered("success")
  }

  predicate IsLogin(p: Posted) {
    p.request == Login && (p.exchange == Answered("0") || p.exchange == Answered("4"))
  }

  /** The commands among the requests, logins left out. */
  function CommandsOf(posts: seq<Posted>): seq<Posted> {
    if posts == [] then [] else CommandOf(posts[0]) + CommandsOf(posts[1..])
  }

  function CommandOf(p: Posted): seq<Posted> {
    if p.request.Command? then [p] else []
  }

  /** The command, and behind a rejection a new login and the command once more. */
  function TwoTries(command: Request, needsLogin: bool, script: seq<Exchange>): seq<Posted> {
    var (answer, rest) := NextExchange(script);
    if answer.Broken? || CommandSucceeded(answer) || !needsLogin then [Posted(command, answer)]
    else
      var (again, rest2) := NextExchange(rest);
      [Posted(command, answer), Posted(Login, again)] +
      if LoginSucceeded(again) then [Posted(command, NextExchange(rest2).0)] else []
  }

  function CommandPosts(command: Request, needsLogin: bool, loggedIn: bool, script: seq<Exchange>): seq<Posted> {
    if !needsLogin || loggedIn then TwoTries(command, needsLogin, script)
    else
      var (answer, rest) := NextExchange(script);
      [Posted(Login, answer)] + if LoginSucceeded(answer) then TwoTries(command, needsLogin, rest) else []
  }

  /**
    `setCmd`: logs in first where the build wants it, and once more if the command is rejected.
    The command is posted at most twice, a second time only after a rejection, and success means
    that its last posting succeeded; the session flag is never set without a login that succeeded.
   */
  method SetCmd(form: Form, needsLogin: bool, loggedIn: bool, script: seq<Exchange>)
    returns (posts: seq<Posted>, ok: bool, session: bool, rest: seq<Exchange>)
    ensures var commands := CommandsOf(posts);
            && |commands| <= 2
            && (forall i :: 0 <= i < |commands| ==> commands[i].request == Command(form))
            && (|commands| == 2 ==>
                  needsLogin && commands[0].exchange.Answered? && !CommandSucceeded(commands[0].exchange))
            && (ok <==> commands != [] && commands[|commands| - 1].exchange == Answered("success"))
            && (commands == [] <==> posts != [] && needsLogin && !loggedIn && !IsLogin(posts[0]))
    ensures ok && needsLogin ==> session
    ensures session ==> loggedIn || exists i :: 0 <= i < |posts| && IsLogin(posts[i])
    ensures needsLogin && !loggedIn ==> posts != [] && posts[0].request == Login
    ensures posts == CommandPosts(Command(form), needsLogin, loggedIn, script)
  {
    posts, session, rest := [], loggedIn, script;
    if needsLogin && !loggedIn {
      var (answer, rest1) := NextExchange(rest);
      posts, rest := [Posted(Login, answer)], rest1;
      if !LoginSucceeded(answer) {
        return posts, false, session, rest;
      }
      session := true;
    }
    ghost var before := posts;
    var (answer, rest2) := NextExchange(rest);
    var first := Posted(Command(form), answer);
    assert CommandsOf(before) == [];
    CommandsAppend(before, first);
    posts, rest := posts + [first], rest2;
    if answer.Broken? {
      return posts, false, session, rest;
    }
    if !CommandSucceeded(answer) && needsLogin {
      var (again, rest3) := NextExchange(rest);
      CommandsAppend(posts, Posted(Login, again));
      posts, rest, session := posts + [Posted(Login, again)], rest3, false;
      if !LoginSucceeded(again) {
        return posts, false, session, rest;
      }
      session := true;
      assert posts[|posts| - 1] == Posted(Login, again);
      var (second, rest4) := NextExchange(rest);
      CommandsAppend(posts, Posted(Command(form), second));
      ghost var at := |posts| - 1;
      posts, rest := posts + [Posted(Command(form), second)], rest4;
      assert posts[at] == Posted(Login, again);
      return posts, CommandSucceeded(second), session, rest;
    }
    ok := CommandSucceeded(answer);
    assert needsLogin && !loggedIn ==> posts[0] == before[0];
  }

  lemma {:induction false} CommandsAppend(posts: seq<Posted>, p: Posted)
    ensures CommandsOf(posts + [p]) == CommandsOf(posts) + CommandOf(p)
  {
    hide CommandOf;
    if posts == [] {
      assert posts + [p] == [p] && [p][1..] == [];
      assert CommandOf(p) + [] == CommandOf(p);
    } else {
      assert (posts + [p])[1..] == posts[1..] + [p];
      CommandsAppend(posts[1..], p);
      assert CommandOf(posts[0]) + (CommandsOf(posts[1..]) + CommandOf(p)) ==
             CommandOf(posts[0]) + CommandsOf(posts[1..]) + CommandOf(p);
    }
  }

  lemma {:induction false} CommandsAreAmong(posts: seq<Posted>)
    ensures forall p :: p in CommandsOf(posts) <==> p in posts && p.request.Command?
    ensures forall i :: 0 <= i < |posts| && posts[i].request.Command? ==> posts[i] in CommandsOf(posts)
    ensures forall k :: 0 <= k < |CommandsOf(posts)| ==> CommandsOf(posts)[k] in posts
  {
    if posts != [] {
      CommandsAreAmong(posts[1..]);
      assert forall p :: p in posts <==> p == posts[0] || p in posts[1..];
    }
  }

  predicate OnlyTheLastSucceeds(posts: seq<Posted>) {
    forall i, j :: 0 <= i < j < |posts| && posts[i].request.Command? && posts[j].request.Command? ==>
      !CommandSucceeded(posts[i].exchange)
  }

  /** Two commands among the posts are among the commands, in this order. */
  lemma {:induction false} TwoCommands(posts: seq<Posted>, i: nat, j: nat)
    requires i < j < |posts| && posts[i].request.Command? && posts[j].request.Command?
    ensures |CommandsOf(posts)| >= 2
    ensures |CommandsOf(posts)| == 2 ==> CommandsOf(posts)[0] == posts[i]
  {
    if i == 0 {
      CommandsAreAmong(posts[1..]);
      assert posts[1..][j - 1] in CommandsOf(posts[1..]);
    } else {
      TwoCommands(posts[1..], i - 1, j - 1);
    }
  }

  /** What the contract of `SetCmd` says about the commands, said about the posts. */
  lemma OnlyTheLastCommand(posts: seq<Posted>)
    requires var commands := CommandsOf(posts);
             |commands| <= 2 && (|commands| == 2 ==> !CommandSucceeded(commands[0].exchange))
    ensures var commands := CommandsOf(posts);
            (exists i :: 0 <= i < |posts| && posts[i].request.Command? && CommandSucceeded(posts[i].exchange)) <==>
            commands != [] && CommandSucceeded(commands[|commands| - 1].exchange)
    ensures OnlyTheLastSucceeds(posts)
  {
    hide CommandsOf;
    CommandsAreAmong(posts);
    forall i, j | 0 <= i < j < |posts| && posts[i].request.Command? && posts[j].request.Command?
      ensures !CommandSucceeded(posts[i].exchange)
    {
      TwoCommands(posts, i, j);
    }
  }

  // ----- The inbox -------------------------------------------------------------------------------

  /** A message as the stick lists it. */
  datatype Listed = Listed(id: nat, tag: string, number: string, date: string, content: string)

  datatype Message = Message(unread: bool, from: string, date: string, text: Inbox.Body)

  /** Tags 0 and 1 are the inbox; everything else was sent from here. */
  predicate InInbox(m: Listed) {
    m.tag == "0" || m.tag == "1"
  }

  function InboxOf(raw: seq<Listed>): seq<Listed> {
    if raw == [] then []
    else (if InInbox(raw[0]) then [raw[0]] else []) + InboxOf(raw[1..])
  }

  /** `date.replace(/,/g, '/')`. */
  function Slashed(date: string): string {
    seq(|date|, i requires 0 <= i < |date| => if date[i] == ',' then '/' else date[i])
  }

  function MessageOf(m: Listed): Message {
    var decoded := Ucs2Decode(m.content);
    Message.Message(
      m.tag == "1", m.number, Slashed(m.date),
      if decoded == [] then Inbox.Chars(m.content) else Inbox.Units(decoded))
  }

  function MessagesOf(inbox: seq<Listed>): seq<Message> {
    seq(|inbox|, i requires 0 <= i < |inbox| => MessageOf(inbox[i]))
  }

  /** `ids.join(';') + ';'`. */
  function IdList(inbox: seq<Listed>): string {
    if inbox == [] then "" else Decimal(inbox[0].id) + ([';'] + IdList(inbox[1..]))
  }

  predicate IsEmptyBody(b: Inbox.Body) {
    b == Inbox.Units([]) || b == Inbox.Chars("")
  }

  /** No message is read as empty, and then deleted, unless the stick sent nothing for it. */
  lemma OnlyEmptyContentReadsEmpty(m: Listed)
    ensures IsEmptyBody(MessageOf(m).text) <==> m.content == ""
  {
    hide Ucs2Decode;
    EmptyDecodes();
  }

  lemma EmptyDecodes()
    ensures Ucs2Decode("") == []
  {
  }

  lemma {:induction false} InboxIsTheInbox(raw: seq<Listed>)
    ensures forall m :: m in InboxOf(raw) <==> m in raw && (m.tag == "0" || m.tag == "1")
  {
    if raw != [] {
      InboxIsTheInbox(raw[1..]);
      assert forall m :: m in raw <==> m == raw[0] || m in raw[1..];
    }
  }

  /** The filter keeps the order, and every repetition. */
  lemma {:induction false} InboxKeepsOrder(a: seq<Listed>, b: seq<Listed>)
    ensures InboxOf(a + b) == InboxOf(a) + InboxOf(b)
  {
    hide InInbox;
    if a == [] {
      assert a + b == b;
    } else {
      InboxKeepsOrder(a[1..], b);
      assert (a + b)[0] == a[0] && (a + b)[1..] == a[1..] + b;
      var head := if InInbox(a[0]) then [a[0]] else [];
      assert head + (InboxOf(a[1..]) + InboxOf(b)) == head + InboxOf(a[1..]) + InboxOf(b);
    }
  }

  lemma InboxOfOne(m: Listed)
    ensures InboxOf([m]) == if m.tag == "0" || m.tag == "1" then [m] else []
  {
    assert [m][1..] == [];
  }

  /**
    What a listed message is read as: its sender, its date with slashes for commas, and the text
    whose code units the content spells, or the content itself if it spells none.
   */
  predicate SaysWhatIsListed(m: Listed, r: Message) {
    && (r.unread <==> m.tag == "1")
    && r.from == m.number
    && |r.date| == |m.date|
    && (forall i :: 0 <= i < |m.date| ==> r.date[i] == if m.date[i] == ',' then '/' else m.date[i])
    && if m.content != "" && AllHex(m.content) && |m.content| % 4 == 0
       then r.text.Units? && Ucs2Hex(r.text.t) == Upper(m.content)
       else r.text == Inbox.Chars(m.content)
  }

  lemma MessageSaysWhatIsListed(m: Listed)
    ensures SaysWhatIsListed(m, MessageOf(m))
  {
    hide Ucs2Decode, Ucs2Hex, AllHex;
    if m.content != "" && AllHex(m.content) && |m.content| % 4 == 0 {
      Ucs2HexOfDecode(m.content);
      EmptyHex();
    } else {
      UndecodableContent(m.content);
    }
  }

  lemma EmptyHex()
    ensures Ucs2Hex([]) == ""
  {
  }

  lemma UndecodableContent(content: string)
    requires content == "" || !AllHex(content) || |content| % 4 != 0
    ensures Ucs2Decode(content) == []
  {
  }

  /** What is stored is what is returned, and a text in hexadecimal is read as it was received. */
  lemma ReceivedReadsBack(m: Listed, text: Text, r: Message)
    requires SaysWhatIsListed(m, r)
    ensures text != [] && m.content == Ucs2Hex(text) ==> r.text == Inbox.Units(text)
    ensures ItemOf(m) == Inbox.Item(m.id, Inbox.Content(r.from, r.date, r.text))
  {
    hide Ucs2Decode, Ucs2Hex, AllHex, Upper;
    MessageSaysWhatIsListed(m);
    SameListing(m, r, MessageOf(m));
    Ucs2DecodeOfHex(text);
  }

  /** There is one way to read a listed message. */
  lemma SameListing(m: Listed, a: Message, b: Message)
    requires SaysWhatIsListed(m, a) && SaysWhatIsListed(m, b)
    ensures a == b
  {
    hide Ucs2Hex, AllHex, Upper;
    assert a.date == b.date;
    if a.text.Units? {
      Ucs2DecodeOfHex(a.text.t);
      Ucs2DecodeOfHex(b.text.t);
    }
  }

  // ----- What the stick makes of a deletion ------------------------------------------------------

  /** Decimal numbers, each ended by a semicolon. */
  function ReadIds(s: string): Option<seq<nat>>
    decreases |s|
  {
    if s == "" then Some([])
    else
      var n := DigitRun(s);
      if n == 0 || n == |s| || s[n] != ';' then None
      else
        var more :- ReadIds(s[n + 1..]);
        Some([DecimalValue(s[..n])] + more)
  }

  function Ids(inbox: seq<Listed>): seq<nat> {
    seq(|inbox|, i requires 0 <= i < |inbox| => inbox[i].id)
  }

  lemma OneIdReadsBack(id: nat, rest: string)
    ensures ReadIds(Decimal(id) + ([';'] + rest)) ==
            match ReadIds(rest) case None => None case Some(more) => Some([id] + more)
  {
    hide Decimal, DecimalValue, DigitRun, IsDigit;
    var digits := Decimal(id);
    DecimalReadsBack(id);
    SemicolonEndsDigits(digits, rest);
    var line := digits + ([';'] + rest);
    assert line[..|digits|] == digits && line[|digits|] == ';' && line[|digits| + 1..] == rest;
  }

  lemma SemicolonEndsDigits(digits: string, rest: string)
    requires forall i :: 0 <= i < |digits| ==> IsDigit(digits[i])
    ensures DigitRun(digits + ([';'] + rest)) == |digits|
  {
    DigitRunStops(digits, ';', rest);
  }

  lemma {:induction false} IdListReadsBack(inbox: seq<Listed>)
    ensures ReadIds(IdList(inbox)) == Some(Ids(inbox))
  {
    hide Decimal, ReadIds;
    if inbox == [] {
      NoIds();
      assert Ids(inbox) == [];
    } else {
      IdListReadsBack(inbox[1..]);
      OneIdReadsBack(inbox[0].id, IdList(inbox[1..]));
      assert Ids(inbox) == [inbox[0].id] + Ids(inbox[1..]);
    }
  }

  lemma NoIds()
    ensures ReadIds("") == Some([])
  {
  }

  // ----- A read as a pass of the inbox machine ---------------------------------------------------

  /** What `getMessages` awaits: requests, the listing (None if it throws), the persist callback; and its end. */
  datatype Action =
    | Post(posted: Posted)
    | GetList(raw: Option<seq<Listed>>)
    | Store(inbox: seq<Listed>, receivedAt: string, ok: bool)
    | Return

  function ItemsOf(inbox: seq<Listed>): seq<Inbox.Item> {
    seq(|inbox|, i requires 0 <= i < |inbox| => ItemOf(inbox[i]))
  }

  function ItemOf(m: Listed): Inbox.Item {
    var message := MessageOf(m);
    Inbox.Item(m.id, Inbox.Content(message.from, message.date, message.text))
  }

  function ElementsOf(ids: seq<nat>): set<nat> {
    set id | id in ids
  }

  /** What the inbox machine sees of an action; `gone` is what an unconfirmed deletion removed. */
  function InboxEventsOf(a: Action, gone: set<nat>): seq<Inbox.Event> {
    match a
    case GetList(raw) => if raw.Some? then [Inbox.List(ItemsOf(InboxOf(raw.value)))] else []
    case Store(inbox, receivedAt, ok) =>
      [if ok then Inbox.Persist(ItemsOf(inbox), receivedAt) else Inbox.PersistThrows]
    case Post(Posted(Command(form), exchange)) =>
      if !form.DeleteForm? then []
      else
        var ids := ReadIds(form.ids);
        var targets := if ids.Some? then ElementsOf(ids.value) else {};
        var acked := CommandSucceeded(exchange);
        [Inbox.Delete(targets, if acked then targets else gone * targets, acked)]
    case Return => [Inbox.EndPass]
    case _ => []
  }

  /** The events of a trace; `gone(i)` belongs to its `i`-th action. */
  ghost function InboxEvents(trace: seq<Action>, gone: nat -> set<nat>): seq<Inbox.Event> {
    if trace == [] then []
    else
      InboxEvents(trace[..|trace| - 1], gone) + InboxEventsOf(trace[|trace| - 1], gone(|trace| - 1))
  }

  lemma OneMoreAction(trace: seq<Action>, a: Action, gone: nat -> set<nat>)
    ensures InboxEvents(trace + [a], gone) == InboxEvents(trace, gone) + InboxEventsOf(a, gone(|trace|))
  {
    hide InboxEventsOf;
    assert (trace + [a])[..|trace|] == trace;
  }

  ghost predicate Follows(p: Inbox.Progress, events: seq<Inbox.Event>, q: Inbox.Progress) {
    Inbox.AdvanceAll(Inbox.Zte, p, events) == Some(q)
  }

  lemma FollowsOneMore(
    p: Inbox.Progress, events: seq<Inbox.Event>, q: Inbox.Progress, e: Inbox.Event, next: Inbox.Progress)
    requires Follows(p, events, q) && Inbox.Advance(Inbox.Zte, q, e) == Some(next)
    ensures Follows(p, events + [e], next)
  {
    hide Inbox.Advance;
    Inbox.AdvanceInTwo(Inbox.Zte, p, events, [e]);
    assert [e][1..] == [] && Inbox.AdvanceAll(Inbox.Zte, next, []) == Some(next);
  }

  function Posts(posts: seq<Posted>): seq<Action> {
    seq(|posts|, i requires 0 <= i < |posts| => Post(posts[i]))
  }

  /** All commands among the posts are this deletion, and none but the last of them succeeds. */
  predicate AreDeletions(posts: seq<Posted>, inbox: seq<Listed>) {
    && OnlyTheLastSucceeds(posts)
    && forall i :: 0 <= i < |posts| && posts[i].request.Command? ==>
         posts[i].request == Command(DeleteForm(IdList(inbox)))
  }

  /** Posting a deletion until it succeeds keeps to the order of a pass. */
  lemma {:induction false} DeletionsFollow(
    trace: seq<Action>, posts: seq<Posted>, inbox: seq<Listed>, gone: nat -> set<nat>, p: Inbox.Progress,
    left: set<nat>)
    requires AreDeletions(posts, inbox) && left == ElementsOf(Ids(inbox))
    requires Follows(p, InboxEvents(trace, gone), Inbox.MayDelete(left))
    ensures var done := exists i ::
                          0 <= i < |posts| && posts[i].request.Command? && CommandSucceeded(posts[i].exchange);
            Follows(p, InboxEvents(trace + Posts(posts), gone), Inbox.MayDelete(if done then {} else left))
    decreases |posts|
  {
    hide Follows, InboxEvents, IdList, ReadIds, Ids, ElementsOf, Inbox.Advance;
    if posts == [] {
      assert trace + Posts(posts) == trace;
    } else {
      var before, last := posts[..|posts| - 1], posts[|posts| - 1];
      DeletionsFollow(trace, before, inbox, gone, p, left);
      var middle := trace + Posts(before);
      OneMoreAction(middle, Post(last), gone);
      assert Posts(posts) == Posts(before) + [Post(last)];
      assert trace + Posts(posts) == middle + [Post(last)];
      assert forall i :: 0 <= i < |before| ==> before[i] == posts[i];
      IdListReadsBack(inbox);
      if last.request.Command? {
        assert forall i :: 0 <= i < |before| && before[i].request.Command? ==> !CommandSucceeded(before[i].exchange);
        DeletionAdvances(left, InboxEventsOf(Post(last), gone(|middle|))[0]);
        FollowsOneMore(
          p, InboxEvents(middle, gone), Inbox.MayDelete(left), InboxEventsOf(Post(last), gone(|middle|))[0],
          Inbox.MayDelete(if CommandSucceeded(last.exchange) then {} else left));
      } else {
        assert InboxEvents(middle, gone) + [] == InboxEvents(middle, gone);
      }
    }
  }

  lemma DeletionAdvances(left: set<nat>, e: Inbox.Event)
    requires e.Delete? && e.targets == left && e.applied <= left && (e.acked ==> e.applied == left)
    ensures Inbox.Advance(Inbox.Zte, Inbox.MayDelete(left), e) == Some(Inbox.MayDelete(if e.acked then {} else left))
  {
    assert left - left == {};
  }

  lemma SlotsAreIds(inbox: seq<Listed>)
    ensures Inbox.SlotsOf(ItemsOf(inbox)) == ElementsOf(Ids(inbox))
  {
    forall id | id in ElementsOf(Ids(inbox))
      ensures id in Inbox.SlotsOf(ItemsOf(inbox))
    {
      var i :| 0 <= i < |inbox| && Ids(inbox)[i] == id;
      assert ItemsOf(inbox)[i].slot == id;
    }
    forall i | 0 <= i < |inbox|
      ensures ItemsOf(inbox)[i].slot in ElementsOf(Ids(inbox))
    {
      assert Ids(inbox)[i] in Ids(inbox);
    }
  }

  /** All that is awaited on the way, in order. */
  function ReadTrace(
    listing: Option<seq<Listed>>, persisted: bool, receivedAt: string, needsLogin: bool, loggedIn: bool,
    script: seq<Exchange>): seq<Action>
  {
    if !needsLogin then ReadBehindLogin(listing, persisted, receivedAt, needsLogin, loggedIn, script)
    else
      var (answer, rest) := NextExchange(script);
      [Post(Posted(Login, answer))] +
      if LoginSucceeded(answer) then ReadBehindLogin(listing, persisted, receivedAt, needsLogin, true, rest) else []
  }

  function ReadBehindLogin(
    listing: Option<seq<Listed>>, persisted: bool, receivedAt: string, needsLogin: bool, loggedIn: bool,
    script: seq<Exchange>): seq<Action>
  {
    if listing.None? || InboxOf(listing.value) == [] then [GetList(listing)]
    else
      var inbox := InboxOf(listing.value);
      [GetList(listing), Store(inbox, receivedAt, persisted)] +
      if persisted then Posts(CommandPosts(Command(DeleteForm(IdList(inbox))), needsLogin, loggedIn, script)) else []
  }

  lemma LoginComesFirst(
    listing: Option<seq<Listed>>, persisted: bool, receivedAt: string, needsLogin: bool, loggedIn: bool,
    script: seq<Exchange>)
    ensures var (answer, rest) := NextExchange(script);
            ReadTrace(listing, persisted, receivedAt, needsLogin, loggedIn, script) ==
            if !needsLogin then
              [] + ReadBehindLogin(listing, persisted, receivedAt, needsLogin, loggedIn, script)
            else if !LoginSucceeded(answer) then [] + [Post(Posted(Login, answer))]
            else
              [] + [Post(Posted(Login, answer))] +
              ReadBehindLogin(listing, persisted, receivedAt, needsLogin, true, rest)
  {
    hide ReadBehindLogin;
  }

  lemma ReadGoesOn(
    before: seq<Action>, listing: Option<seq<Listed>>, persisted: bool, receivedAt: string, needsLogin: bool,
    loggedIn: bool, script: seq<Exchange>)
    ensures before + ReadBehindLogin(listing, persisted, receivedAt, needsLogin, loggedIn, script) ==
            if listing.None? || InboxOf(listing.value) == [] then before + [GetList(listing)]
            else
              var inbox := InboxOf(listing.value);
              var stored := before + [GetList(listing)] + [Store(inbox, receivedAt, persisted)];
              if !persisted then stored
              else stored + Posts(CommandPosts(Command(DeleteForm(IdList(inbox))), needsLogin, loggedIn, script))
  {
    hide InboxOf, CommandPosts, IdList, Posts;
  }

  /** Every command deletes exactly the ids of the inbox, behind an action that has stored it. */
  predicate DeletesTheStored(trace: seq<Action>, listing: Option<seq<Listed>>, receivedAt: string) {
    forall i :: 0 <= i < |trace| && trace[i].Post? && trace[i].posted.request.Command? ==>
      && listing.Some? && trace[i].posted.request == Command(DeleteForm(IdList(InboxOf(listing.value))))
      && exists j :: 0 <= j < i && trace[j] == Store(InboxOf(listing.value), receivedAt, true)
  }

  predicate StartsWithLogin(trace: seq<Action>) {
    trace != [] && trace[0].Post? && trace[0].posted.request == Login
  }

  predicate LoggedInFirst(trace: seq<Action>) {
    StartsWithLogin(trace) && (trace[0].posted.exchange == Answered("0") || trace[0].posted.exchange == Answered("4"))
  }

  /** One message returned for each one listed, in order. */
  predicate AllSayWhatIsListed(inbox: seq<Listed>, messages: seq<Message>) {
    |messages| == |inbox| && forall i :: 0 <= i < |inbox| ==> SaysWhatIsListed(inbox[i], messages[i])
  }

  /** A command of the trace, which has none but deletions, was accepted. */
  predicate HasDeleted(trace: seq<Action>) {
    exists i :: 0 <= i < |trace| && trace[i].Post? &&
                trace[i].posted.request.Command? && trace[i].posted.exchange == Answered("success")
  }

  lemma NothingDeleted(trace: seq<Action>)
    requires forall i :: 0 <= i < |trace| && trace[i].Post? ==> !trace[i].posted.request.Command?
    ensures !HasDeleted(trace)
  {
  }

  lemma ReturnDeletesNothing(trace: seq<Action>)
    ensures HasDeleted(trace + [Return]) <==> HasDeleted(trace)
  {
    forall i | 0 <= i < |trace|
      ensures (trace + [Return])[i] == trace[i]
    {
    }
  }

  predicate HasSucceeded(posts: seq<Posted>) {
    exists i :: 0 <= i < |posts| && posts[i].request.Command? && CommandSucceeded(posts[i].exchange)
  }

  /** The deletion at the end of `getMessages`, behind a trace that has stored the inbox. */
  method DeleteInbox(
    inbox: seq<Listed>, needsLogin: bool, loggedIn: bool, script: seq<Exchange>, ghost trace: seq<Action>,
    ghost p: Inbox.Progress, ghost gone: nat -> set<nat>)
    returns (posts: seq<Posted>, ok: bool)
    requires Follows(p, InboxEvents(trace, gone), Inbox.MayDelete(Inbox.SlotsOf(ItemsOf(inbox))))
    ensures posts == CommandPosts(Command(DeleteForm(IdList(inbox))), needsLogin, loggedIn, script)
    ensures forall i :: 0 <= i < |posts| && posts[i].request.Command? ==>
              posts[i].request == Command(DeleteForm(IdList(inbox)))
    ensures ok <==> HasSucceeded(posts)
    ensures Inbox.AdvanceAll(Inbox.Zte, p, InboxEvents(trace + Posts(posts), gone)).Some?
  {
    hide CommandPosts, InboxEvents, IdList, ItemsOf, ElementsOf, Ids, Inbox.AdvanceAll, Inbox.SlotsOf,
      OnlyTheLastSucceeds, CommandsOf, Posts;
    var session, rest;
    posts, ok, session, rest := SetCmd(DeleteForm(IdList(inbox)), needsLogin, loggedIn, script);
    CommandsAreAmong(posts);
    OnlyTheLastCommand(posts);
    SlotsAreIds(inbox);
    DeletionsFollow(trace, posts, inbox, gone, p, ElementsOf(Ids(inbox)));
  }

  /** `getMessages` up to where it returns or throws. */
  method ReadAndDelete(
    listing: Option<seq<Listed>>, persisted: bool, receivedAt: string, needsLogin: bool, loggedIn: bool,
    script: seq<Exchange>, ghost p: Inbox.Progress, ghost gone: nat -> set<nat>)
    returns (messages: seq<Message>, trace: seq<Action>, ok: bool)
    ensures needsLogin ==> StartsWithLogin(trace)
    ensures DeletesTheStored(trace, listing, receivedAt)
    ensures ok ==> listing.Some? && messages == MessagesOf(InboxOf(listing.value))
    ensures ok <==>
              && (needsLogin ==> LoggedInFirst(trace)) && listing.Some?
              && (InboxOf(listing.value) == [] || HasDeleted(trace))
    ensures Inbox.AdvanceAll(Inbox.Zte, p, InboxEvents(trace, gone)).Some?
    ensures trace == ReadTrace(listing, persisted, receivedAt, needsLogin, loggedIn, script)
  {
    hide ReadTrace, ReadBehindLogin, CommandPosts, InboxEvents, IdList, ItemsOf, MessageOf, Posts, HasSucceeded,
      HasDeleted, Inbox.AdvanceAll, Inbox.SlotsOf, InboxOf;
    messages, trace, ok := [], [], false;
    var session, rest := loggedIn, script;
    NothingFollows(p, gone);
    LoginComesFirst(listing, persisted, receivedAt, needsLogin, loggedIn, script);
    if needsLogin {
      var (answer, rest1) := NextExchange(rest);
      var login := Post(Posted(Login, answer));
      OneMoreAction(trace, login, gone);
      trace, rest := trace + [login], rest1;
      if !LoginSucceeded(answer) {
        return;
      }
      session := true;
    }
    ReadGoesOn(trace, listing, persisted, receivedAt, needsLogin, session, rest);
    OneMoreAction(trace, GetList(listing), gone);
    trace := trace + [GetList(listing)];
    if listing.None? {
      return;
    }
    var inbox := InboxOf(listing.value);
    FollowsOneMore(p, [], p, Inbox.List(ItemsOf(inbox)), Inbox.HasRead(ItemsOf(inbox)));
    assert InboxEvents(trace, gone) == [] + [Inbox.List(ItemsOf(inbox))];
    messages := MessagesOf(inbox);
    if inbox == [] {
      return messages, trace, true;
    }
    var stored := Store(inbox, receivedAt, persisted);
    OneMoreAction(trace, stored, gone);
    FollowsOneMore(
      p, InboxEvents(trace, gone), Inbox.HasRead(ItemsOf(inbox)), InboxEventsOf(stored, {})[0],
      if persisted then Inbox.MayDelete(Inbox.SlotsOf(ItemsOf(inbox))) else Inbox.NoPass);
    trace := trace + [stored];
    NothingDeleted(trace);
    if !persisted {
      return;
    }
    var posts;
    posts, ok := DeleteInbox(inbox, needsLogin, session, rest, trace, p, gone);
    DeletionsComeBehind(trace, posts, inbox, receivedAt);
    SucceededBehind(trace, posts);
    trace := trace + Posts(posts);
  }

  /**
    `getMessages`: a fresh login where the build wants one, the listing, storage, and then one
    deletion that lists exactly the ids of the inbox messages. Every deletion comes behind a store
    action that took exactly the inbox; a message outside it is neither returned nor deleted. The
    trace is a whole pass of the inbox machine, whatever `p` was before and whatever unconfirmed
    deletions did.
   */
  method GetMessages(
    listing: Option<seq<Listed>>, persisted: bool, receivedAt: string, needsLogin: bool, loggedIn: bool,
    script: seq<Exchange>, ghost p: Inbox.Progress, ghost gone: nat -> set<nat>)
    returns (messages: seq<Message>, trace: seq<Action>, ok: bool)
    ensures trace != [] && trace[|trace| - 1] == Return
    ensures needsLogin ==> StartsWithLogin(trace)
    ensures DeletesTheStored(trace, listing, receivedAt)
    ensures ok ==> listing.Some? && AllSayWhatIsListed(InboxOf(listing.value), messages)
    ensures ok <==>
              && (needsLogin ==> LoggedInFirst(trace)) && listing.Some?
              && (InboxOf(listing.value) == [] || HasDeleted(trace))
    ensures Inbox.AdvanceAll(Inbox.Zte, p, InboxEvents(trace, gone)) == Some(Inbox.NoPass)
    ensures trace == ReadTrace(listing, persisted, receivedAt, needsLogin, loggedIn, script) + [Return]
  {
    hide ReadTrace, InboxEvents, IdList, InboxOf, MessageOf, SaysWhatIsListed, HasDeleted,
      Inbox.AdvanceAll;
    var before;
    messages, before, ok :=
      ReadAndDelete(listing, persisted, receivedAt, needsLogin, loggedIn, script, p, gone);
    if ok {
      forall m
        ensures SaysWhatIsListed(m, MessageOf(m))
      {
        MessageSaysWhatIsListed(m);
      }
    }
    OneMoreAction(before, Return, gone);
    FollowsOneMore(
      p, InboxEvents(before, gone), Inbox.AdvanceAll(Inbox.Zte, p, InboxEvents(before, gone)).value, Inbox.EndPass,
      Inbox.NoPass);
    ReturnDeletesNothing(before);
    trace := before + [Return];
    assert forall i :: 0 <= i < |before| ==> trace[i] == before[i];
  }

  lemma NothingFollows(p: Inbox.Progress, gone: nat -> set<nat>)
    ensures InboxEvents([], gone) == [] && Follows(p, [], p)
  {
  }

  lemma SucceededBehind(trace: seq<Action>, posts: seq<Posted>)
    requires forall i :: 0 <= i < |trace| && trace[i].Post? ==> !trace[i].posted.request.Command?
    ensures var all := trace + Posts(posts);
            HasSucceeded(posts) <==> HasDeleted(all)
  {
    var all := trace + Posts(posts);
    forall i | 0 <= i < |posts|
      ensures all[|trace| + i] == Post(posts[i])
    {
    }
  }

  lemma DeletionsComeBehind(trace: seq<Action>, posts: seq<Posted>, inbox: seq<Listed>, receivedAt: string)
    requires trace != [] && trace[|trace| - 1] == Store(inbox, receivedAt, true)
    requires forall i :: 0 <= i < |trace| && trace[i].Post? ==> !trace[i].posted.request.Command?
    requires forall i :: 0 <= i < |posts| && posts[i].request.Command? ==>
               posts[i].request == Command(DeleteForm(IdList(inbox)))
    ensures var all := trace + Posts(posts);
            && all[0] == trace[0]
            && forall i :: 0 <= i < |all| && all[i].Post? && all[i].posted.request.Command? ==>
                 && all[i].posted.request == Command(DeleteForm(IdList(inbox)))
                 && exists j :: 0 <= j < i && all[j] == Store(inbox, receivedAt, true)
  {
    hide IdList;
    var all, n := trace + Posts(posts), |trace|;
    assert all[n - 1] == Store(inbox, receivedAt, true) && forall i :: 0 <= i < n ==> all[i] == trace[i];
    forall i | 0 <= i < |all| && all[i].Post? && all[i].posted.request.Command?
      ensures n <= i && all[i].posted == posts[i - n]
    {
    }
  }

  /**
    A read of a ZTE stick, with arrivals in any free slots between its actions, is a run of the
    inbox machine as long as the listing says what is stored. A message that is not safe after it
    was not safe before, or arrived under an id that the deletion under way still named.
   */
  lemma ZteReadsLoseOnlyByClash(
    site: Inbox.Site, p: Inbox.Progress, trace: seq<Action>, gone: nat -> set<nat>, events: seq<Inbox.Event>)
    requires site.kind == Inbox.Zte && Inbox.Inv(site) && Inbox.Agrees(p, site.pass)
    requires Inbox.AdvanceAll(Inbox.Zte, p, InboxEvents(trace, gone)) == Some(Inbox.NoPass)
    requires Inbox.WithoutArrivals(events) == InboxEvents(trace, gone) && Inbox.EnvironmentOk(site, events)
    ensures var after := Inbox.Run(site, events);
            && Inbox.IsRun(site, events) && Inbox.Inv(after) && after.kind == Inbox.Zte
            && Inbox.Agrees(Inbox.NoPass, after.pass)
            && forall m :: m in after.arrived && !Inbox.Safe(after, m) ==>
                 (m in site.arrived && !Inbox.Safe(site, m)) || Inbox.Clashed(site, events, m)
  {
    hide InboxEvents, Inbox.AdvanceAll, Inbox.IsRun, Inbox.EnvironmentOk, Inbox.WithoutArrivals, Inbox.Run,
      Inbox.Inv, Inbox.Agrees, Inbox.Safe, Inbox.Clashed;
    Inbox.FollowingLosesOnlyByClash(site, p, events);
  }

  /** A read whose first deletion is rejected; the stick has carried it out all the same. */
  function RepeatedDeletion(m: Listed, receivedAt: string): seq<Action> {
    var deletion := Command(DeleteForm(IdList([m])));
    [Post(Posted(Login, Answered("0"))), GetList(Some([m])), Store([m], receivedAt, true),
     Post(Posted(deletion, Answered("failure"))), Post(Posted(Login, Answered("0"))),
     Post(Posted(deletion, Answered("success"))), Return]
  }

  /** The replies that make the driver repeat its deletion. */
  function RepeatingScript(): seq<Exchange> {
    [Answered("0"), Answered("failure"), Answered("0"), Answered("success")]
  }

  lemma DriverRepeatsDeletion(m: Listed, receivedAt: string, loggedIn: bool)
    requires InInbox(m)
    ensures ReadTrace(Some([m]), true, receivedAt, true, loggedIn, RepeatingScript()) + [Return] ==
            RepeatedDeletion(m, receivedAt)
  {
    hide IdList;
    OnlyMessage(m);
    var s := RepeatingScript();
    assert "failure"[0] != "success"[0];
    assert s[1..] == [Answered("failure"), Answered("0"), Answered("success")];
    assert s[1..][1..] == [Answered("0"), Answered("success")] && s[1..][1..][1..] == [Answered("success")];
  }

  /** Unconfirmed deletions remove this message, if they name it. */
  function Removing(id: nat): nat -> set<nat> {
    _ => {id}
  }

  /**
    Against those replies the driver does just that, and what the inbox machine sees of it is the
    run in which a message that came in between is lost.
   */
  lemma RepeatedDeletionLosesAMessage(
    m: Listed, d: Inbox.Content, modemId: string, receivedAt: string, loggedIn: bool)
    requires InInbox(m)
    ensures var trace := ReadTrace(Some([m]), true, receivedAt, true, loggedIn, RepeatingScript()) + [Return];
            var site := Inbox.Initial(Inbox.Zte, modemId);
            var events := Inbox.ReuseRun(m.id, ItemOf(m).content, d, receivedAt) + [Inbox.EndPass];
            && Inbox.WithoutArrivals(events) == InboxEvents(trace, Removing(m.id))
            && Inbox.IsRun(site, events) && Inbox.Lost(Inbox.Run(site, events), Inbox.Sms(1, d))
  {
    hide ReadTrace, RepeatingScript, InboxEvents, IdList, ReadIds, InboxEventsOf, Inbox.IsRun, Inbox.Run, Inbox.Lost,
      Inbox.WithoutArrivals;
    var c := ItemOf(m).content;
    var site, run := Inbox.Initial(Inbox.Zte, modemId), Inbox.ReuseRun(m.id, c, d, receivedAt);
    DriverRepeatsDeletion(m, receivedAt, loggedIn);
    Inbox.ReusedIdIsLost(modemId, m.id, c, d, receivedAt);
    Inbox.EndingKeepsLosses(site, run, Inbox.Sms(1, d));
    RepeatedDeletionEvents(m, receivedAt);
    Inbox.ReuseWithoutArrivals(m.id, c, d, receivedAt);
  }

  lemma RepeatedDeletionEvents(m: Listed, receivedAt: string)
    requires InInbox(m)
    ensures InboxEvents(RepeatedDeletion(m, receivedAt), Removing(m.id)) ==
            [Inbox.List([ItemOf(m)]), Inbox.Persist([ItemOf(m)], receivedAt),
             Inbox.Delete({m.id}, {m.id}, false), Inbox.Delete({m.id}, {m.id}, true), Inbox.EndPass]
  {
    hide InboxEvents, InboxEventsOf, IdList;
    var gone, t := Removing(m.id), RepeatedDeletion(m, receivedAt);
    RepeatedDeletionSteps(m, receivedAt);
    NothingFollows(Inbox.NoPass, gone);
    OneMoreAction([], t[0], gone);
    assert [] + [t[0]] == [t[0]];
    OneMoreAction([t[0]], t[1], gone);
    assert [t[0]] + [t[1]] == [t[0], t[1]];
    OneMoreAction([t[0], t[1]], t[2], gone);
    assert [t[0], t[1]] + [t[2]] == [t[0], t[1], t[2]];
    OneMoreAction([t[0], t[1], t[2]], t[3], gone);
    assert [t[0], t[1], t[2]] + [t[3]] == [t[0], t[1], t[2], t[3]];
    OneMoreAction([t[0], t[1], t[2], t[3]], t[4], gone);
    assert [t[0], t[1], t[2], t[3]] + [t[4]] == [t[0], t[1], t[2], t[3], t[4]];
    OneMoreAction([t[0], t[1], t[2], t[3], t[4]], t[5], gone);
    assert [t[0], t[1], t[2], t[3], t[4]] + [t[5]] == [t[0], t[1], t[2], t[3], t[4], t[5]];
    OneMoreAction([t[0], t[1], t[2], t[3], t[4], t[5]], t[6], gone);
    assert t == [t[0], t[1], t[2], t[3], t[4], t[5]] + [t[6]];
  }

  /** What each action of the read contributes. */
  lemma RepeatedDeletionSteps(m: Listed, receivedAt: string)
    requires InInbox(m)
    ensures var t := RepeatedDeletion(m, receivedAt);
            && InboxEventsOf(t[0], {m.id}) == [] && InboxEventsOf(t[4], {m.id}) == []
            && InboxEventsOf(t[1], {m.id}) == [Inbox.List([ItemOf(m)])]
            && InboxEventsOf(t[2], {m.id}) == [Inbox.Persist([ItemOf(m)], receivedAt)]
            && InboxEventsOf(t[3], {m.id}) == [Inbox.Delete({m.id}, {m.id}, false)]
            && InboxEventsOf(t[5], {m.id}) == [Inbox.Delete({m.id}, {m.id}, true)]
            && InboxEventsOf(t[6], {m.id}) == [Inbox.EndPass]
  {
    hide IdList, ReadIds, ItemOf, Ids, InboxOf;
    OnlyMessage(m);
    IdListReadsBack([m]);
    assert "failure"[0] != "success"[0];
    assert {m.id} * {m.id} == {m.id};
  }

  lemma OnlyMessage(m: Listed)
    requires InInbox(m)
    ensures InboxOf([m]) == [m] && ItemsOf([m]) == [ItemOf(m)] && ElementsOf(Ids([m])) == {m.id}
  {
    assert [m][1..] == [] && Ids([m]) == [m.id];
  }

  // ----- Sending ---------------------------------------------------------------------------------

  const SEND_POLL_TIMEOUT_MS: nat := 60000

  /** One turn of the poll: how long sleep and request took, and the status; None if the request throws. */
  datatype Poll = Poll(elapsed: nat, status: Option<string>)

  datatype Delivery = Sent | Refused | PollFailed | Unconfirmed

  function Verdict(p: Poll): (v: Option<Delivery>)
    ensures v != Some(Unconfirmed)
  {
    match p.status
    case None => Some(PollFailed)
    case Some(status) => if status == "3" then Some(Sent) else if status == "2" then Some(Refused) else None
  }

  /** Time spent in the first `k` polls. */
  function Elapsed(polls: seq<Poll>, k: nat): nat
    requires k <= |polls|
  {
    if k == 0 then 0 else Elapsed(polls, k - 1) + polls[k - 1].elapsed
  }

  lemma NothingElapsed(polls: seq<Poll>)
    ensures Elapsed(polls, 0) == 0
  {
  }

  lemma OneMorePoll(polls: seq<Poll>, k: nat)
    requires k < |polls|
    ensures Elapsed(polls, k + 1) == Elapsed(polls, k) + polls[k].elapsed
  {
  }

  /** Neither `3`, which is sent, nor `2`, which is failed, nor a poll that broke. */
  predicate Undecided(p: Poll) {
    p.status.Some? && p.status.value != "3" && p.status.value != "2"
  }

  lemma VerdictIsDecisive(p: Poll)
    ensures Verdict(p).None? <==> Undecided(p)
    ensures Verdict(p) == Some(Sent) <==> p.status == Some("3")
    ensures Verdict(p) == Some(Refused) <==> p.status == Some("2")
    ensures Verdict(p) == Some(PollFailed) <==> p.status == None
  {
    assert "3"[0] != "2"[0];
  }

  /**
    The poll loop of `sendSMS`. The verdict is that of the first decisive poll, provided that poll
    began before the deadline, which scales with the number of parts; `Unconfirmed`, the outcome
    that must not be retried, means that every poll begun in time was undecided.
   */
  method AwaitSent(polls: seq<Poll>, segments: nat) returns (d: Delivery, n: nat)
    requires Elapsed(polls, |polls|) >= 60000 * segments
    ensures n <= |polls|
    ensures forall i :: 0 <= i < n ==> Undecided(polls[i]) && Elapsed(polls, i) < 60000 * segments
    ensures d.Unconfirmed? <==> Elapsed(polls, n) >= 60000 * segments
    ensures !d.Unconfirmed? ==>
              n < |polls| && polls[n].status == match d case Sent => Some("3") case Refused => Some("2") case _ => None
  {
    hide Elapsed, Verdict, Undecided;
    var deadline := SEND_POLL_TIMEOUT_MS * segments;
    var now := 0;
    n := 0;
    NothingElapsed(polls);
    while now < deadline
      invariant n <= |polls| && now == Elapsed(polls, n)
      invariant forall i :: 0 <= i < n ==> Undecided(polls[i]) && Elapsed(polls, i) < deadline
      decreases |polls| - n
    {
      OneMorePoll(polls, n);
      VerdictIsDecisive(polls[n]);
      now := now + polls[n].elapsed;
      var verdict := Verdict(polls[n]);
      if verdict.Some? {
        return verdict.value, n;
      }
      n := n + 1;
    }
    d := Unconfirmed;
  }

  datatype SendResult = Delivered | Threw(confirmTimeout: bool)

  /** A `SEND_SMS` for this number with this text. */
  predicate IsSendOf(r: Request, to: string, message: Text) {
    r.Command? && r.form.SendForm? && r.form.number == to && Ucs2Decode(r.form.body) == message
  }

  predicate CommandAccepted(posts: seq<Posted>, to: string, message: Text) {
    exists i :: 0 <= i < |posts| && IsSendOf(posts[i].request, to, message) && posts[i].exchange == Answered("success")
  }

  /** Every poll begun before the deadline was undecided. */
  predicate AllUndecided(polls: seq<Poll>, deadline: nat) {
    forall i :: 0 <= i < |polls| && Elapsed(polls, i) < deadline ==> Undecided(polls[i])
  }

  /** The first decisive poll was begun before the deadline, and had this status. */
  predicate FirstSays(polls: seq<Poll>, deadline: nat, status: string) {
    exists n :: 0 <= n < |polls| && Elapsed(polls, n) < deadline && polls[n].status == Some(status) &&
                forall i :: 0 <= i < n ==> Undecided(polls[i])
  }

  lemma {:induction false} ElapsedGrows(polls: seq<Poll>, i: nat, j: nat)
    requires i <= j <= |polls|
    ensures Elapsed(polls, i) <= Elapsed(polls, j)
    decreases j
  {
    if i < j {
      ElapsedGrows(polls, i, j - 1);
    }
  }

  /** The verdict of the loop is that of the polls. */
  lemma OutcomeIsExact(polls: seq<Poll>, deadline: nat, d: Delivery, n: nat)
    requires n <= |polls| && forall i :: 0 <= i < n ==> Undecided(polls[i]) && Elapsed(polls, i) < deadline
    requires d.Unconfirmed? <==> Elapsed(polls, n) >= deadline
    requires !d.Unconfirmed? ==>
               n < |polls| && polls[n].status == match d case Sent => Some("3") case Refused => Some("2") case _ => None
    ensures d.Unconfirmed? <==> AllUndecided(polls, deadline)
    ensures d.Sent? <==> FirstSays(polls, deadline, "3")
  {
    hide Elapsed;
    assert "3"[0] != "2"[0];
    if d.Unconfirmed? {
      forall i | n <= i < |polls|
        ensures Elapsed(polls, i) >= deadline
      {
        ElapsedGrows(polls, n, i);
      }
    } else {
      assert !Undecided(polls[n]);
    }
  }

  /**
    `sendSMS`. It succeeds exactly if the command was accepted and the first decisive poll begun
    in time says so; its failure is marked `confirmTimeout`, the mark that forbids a retry, exactly
    if the command was accepted and every poll begun in time was undecided.
   */
  method SendSms(
    to: string, message: Text, needsLogin: bool, loggedIn: bool, script: seq<Exchange>, polls: seq<Poll>)
    returns (result: SendResult, posts: seq<Posted>)
    requires Elapsed(polls, |polls|) >= 60000 * AnalyzeUcs2(message).segments
    ensures posts != [] <==> ValidNumber(to) && AnalyzeUcs2(message).ok
    ensures forall i :: 0 <= i < |posts| ==> posts[i].request == Login || IsSendOf(posts[i].request, to, message)
    ensures var deadline := 60000 * AnalyzeUcs2(message).segments;
            && (result == Delivered <==> CommandAccepted(posts, to, message) && FirstSays(polls, deadline, "3"))
            && (result == Threw(true) <==> CommandAccepted(posts, to, message) && AllUndecided(polls, deadline))
  {
    hide Elapsed, Undecided, AnalyzeUcs2, FirstSays, AllUndecided, ValidNumber, Ucs2Hex, Ucs2Decode, CommandPosts;
    Ucs2DecodeOfHex(message);
    posts := [];
    if !ValidNumber(to) {
      return Threw(false), posts;
    }
    var info := AnalyzeUcs2(message);
    if !info.ok {
      return Threw(false), posts;
    }
    var ok, session, rest;
    posts, ok, session, rest := SetCmd(SendForm(to, Ucs2Hex(message)), needsLogin, loggedIn, script);
    CommandsAreAmong(posts);
    OnlyTheLastCommand(posts);
    assert ok <==> CommandAccepted(posts, to, message);
    if !ok {
      return Threw(false), posts;
    }
    var d, n := AwaitSent(polls, info.segments);
    OutcomeIsExact(polls, SEND_POLL_TIMEOUT_MS * info.segments, d, n);
    match d {
      case Sent => result := Delivered;
      case Unconfirmed => result := Threw(true);
      case _ => result := Threw(false);
    }
  }
}
