/**
 * The chat-completion client: every call appends the user's message, keeps it only if an
 * answer arrives, and trims the conversation to a window over its most recent messages.
 */
module ChatClient {
  import opened Collections
  import opened Conversations
  import opened Clock

  /** What the service returns: nothing, something that is not an answer, or an answer. */
  datatype Reply = NoResponse | BadResponse | Answer(content: string)

  datatype Exchange = Exchange(user: string, answer: string)

  /** One call of the client's interface. */
  datatype Call =
    | Chat(id: Id, user: string, reply: Reply)
    | Clear(id: Id)
    | ClearAll
    | CleanupExpired(maxAge: int)

  /** Erases the second message until at most `max` follow the first. */
  function Trim(messages: seq<Message>, max: nat): seq<Message>
    decreases |messages|
  {
    if |messages| > max + 1 then Trim([messages[0]] + messages[2..], max) else messages
  }

  /** What a reply does to the conversation it belongs to; only an answer leaves anything behind. */
  function Answered(cfg: Config, cache: Cache, id: Id, user: string, reply: Reply): Cache
    requires id in cache
  {
    match reply
    case Answer(content) =>
      var grown := cache[id].messages + [Message(User, user), Message(Assistant, content)];
      cache[id := cache[id].(messages := Trim(grown, cfg.maxContext))]
    case _ => cache
  }

  ghost function AfterChat(cfg: Config, cache: Cache, id: Id, user: string, reply: Reply, now: int): Cache
    requires cfg.maxConversations >= 1
  {
    Answered(cfg, Access(cfg, cache, id, now), id, user, reply)
  }

  function AfterCleanup(cache: Cache, maxAge: int, now: int): Cache {
    map id | id in cache && WholeSeconds(now - cache[id].lastAccess) <= maxAge :: cache[id]
  }

  ghost function AfterCall(cfg: Config, cache: Cache, call: Call, now: int): Cache
    requires cfg.maxConversations >= 1
  {
    match call
    case Chat(id, user, reply) => AfterChat(cfg, cache, id, user, reply, now)
    case Clear(id) => cache - {id}
    case ClearAll => map[]
    case CleanupExpired(maxAge) => AfterCleanup(cache, maxAge, now)
  }

  /** A failed call refreshes or opens the conversation but leaves its messages as they were. */
  lemma FailedCallLeavesMessages(cfg: Config, cache: Cache, id: Id, user: string, reply: Reply, now: int)
    requires cfg.maxConversations >= 1 && !reply.Answer?
    ensures var after := AfterChat(cfg, cache, id, user, reply, now);
            && after[id].messages == (if id in cache then cache[id].messages else Opening(cfg))
            && after == Access(cfg, cache, id, now)
  {
  }

  /** Whatever the reply, a call keeps and drops the conversations that the access alone would. */
  lemma ChatIsOneAccess(cfg: Config, cache: Cache, id: Id, user: string, reply: Reply, now: int)
    requires cfg.maxConversations >= 1
    ensures var after, accessed := AfterChat(cfg, cache, id, user, reply, now), Access(cfg, cache, id, now);
            && after.Keys == accessed.Keys
            && (forall j :: j in after ==> after[j].lastAccess == accessed[j].lastAccess)
            && (forall j :: j in after && j != id ==> after[j] == accessed[j])
  {
  }

  /** An expiry keeps, unchanged, exactly the conversations that are not a whole second over age. */
  lemma CleanupExactly(cfg: Config, cache: Cache, maxAge: int, now: int, id: Id)
    requires cfg.maxConversations >= 1
    ensures var after := AfterCall(cfg, cache, CleanupExpired(maxAge), now);
            && (id in after ==> id in cache && after[id] == cache[id])
            && (id in cache ==>
                  var age := now - cache[id].lastAccess;
                  id in after <==>
                    if maxAge >= 0 then age < (maxAge + 1) * 1_000_000_000 else age <= maxAge * 1_000_000_000)
  {
    if id in cache {
      MoreThanSeconds(now - cache[id].lastAccess, maxAge);
    }
  }

  /** Clearing takes away one conversation, or all; no other is touched. */
  lemma ClearExactly(cfg: Config, cache: Cache, id: Id, other: Id, now: int)
    requires cfg.maxConversations >= 1
    ensures var after := AfterCall(cfg, cache, Clear(id), now);
            && id !in after
            && (other != id ==>
                  (other in after <==> other in cache) && (other in after ==> after[other] == cache[other]))
    ensures AfterCall(cfg, cache, ClearAll, now) == map[]
  {
  }

  // ---------- the window ----------

  /** The first message, and the last `max` of the others. */
  function Window(full: seq<Message>, max: nat): seq<Message> {
    if |full| <= max + 1 then full else [full[0]] + full[|full| - max..]
  }

  lemma {:induction false} TrimIsWindow(messages: seq<Message>, max: nat)
    ensures Trim(messages, max) == Window(messages, max)
    decreases |messages|
  {
    if |messages| > max + 1 {
      var shorter := [messages[0]] + messages[2..];
      TrimIsWindow(shorter, max);
      assert shorter[|shorter| - max..] == messages[|messages| - max..];
    }
  }

  /** The last `n` elements, or all of them. */
  function Latest<T>(s: seq<T>, n: nat): seq<T> {
    if n <= |s| then s[|s| - n..] else s
  }

  lemma LatestOfSuffix<T>(dropped: seq<T>, s: seq<T>, n: nat)
    requires n <= |s|
    ensures Latest(dropped + s, n) == Latest(s, n)
  {
  }

  lemma LatestOfLatest<T>(s: seq<T>, more: seq<T>, n: nat)
    ensures Latest(Latest(s, n) + more, n) == Latest(s + more, n)
  {
    if n <= |s| {
      var dropped, kept := s[..|s| - n], s[|s| - n..];
      assert s + more == dropped + (kept + more);
      LatestOfSuffix(dropped, kept + more, n);
    }
  }

  lemma WindowIsLatest(first: Message, others: seq<Message>, max: nat)
    ensures Window([first] + others, max) == [first] + Latest(others, max)
  {
    var full := [first] + others;
    if |others| > max {
      assert full[|full| - max..] == others[|others| - max..];
    } else if |others| == max {
      assert others[0..] == others;
    }
  }

  /** Trimming again and again shows the same window as trimming once. */
  lemma WindowOfWindow(full: seq<Message>, more: seq<Message>, max: nat)
    ensures Window(Window(full, max) + more, max) == Window(full + more, max)
  {
    if full == [] {
      assert Window(full, max) == full;
    } else {
      var first, others := full[0], full[1..];
      assert full == [first] + others && full + more == [first] + (others + more);
      WindowIsLatest(first, others, max);
      WindowIsLatest(first, others + more, max);
      assert Window(full, max) + more == [first] + (Latest(others, max) + more);
      WindowIsLatest(first, Latest(others, max) + more, max);
      LatestOfLatest(others, more, max);
    }
  }

  function Flatten(exchanges: seq<Exchange>): seq<Message> {
    if exchanges == [] then []
    else
      [Message(User, exchanges[0].user), Message(Assistant, exchanges[0].answer)] + Flatten(exchanges[1..])
  }

  lemma {:induction false} FlattenAppend(a: seq<Exchange>, b: seq<Exchange>)
    ensures Flatten(a + b) == Flatten(a) + Flatten(b)
  {
    if a == [] {
      assert a + b == b;
    } else {
      assert (a + b)[1..] == a[1..] + b;
      FlattenAppend(a[1..], b);
    }
  }

  lemma {:induction false} FlattenLength(exchanges: seq<Exchange>)
    ensures |Flatten(exchanges)| == 2 * |exchanges|
  {
    if exchanges != [] {
      FlattenLength(exchanges[1..]);
    }
  }

  /** Which exchanges have succeeded in each live conversation since it was opened. */
  type History = map<Id, seq<Exchange>>

  ghost function HistoryAfter(cfg: Config, cache: Cache, history: History, call: Call, now: int): History
    requires cfg.maxConversations >= 1
  {
    var live := AfterCall(cfg, cache, call, now);
    map id | id in live ::
      var past := if id in cache && id in history then history[id] else [];
      if call.Chat? && call.id == id && call.reply.Answer? then past + [Exchange(call.user, call.reply.content)]
      else past
  }

  /** Every conversation shows the window over everything said in it since it was opened. */
  ghost predicate ShowsWindows(cfg: Config, cache: Cache, history: History) {
    && history.Keys == cache.Keys
    && forall id :: id in cache ==> ShowsWindow(cfg, cache[id].messages, history[id])
  }

  ghost predicate ShowsWindow(cfg: Config, messages: seq<Message>, told: seq<Exchange>) {
    messages == Window(Opening(cfg) + Flatten(told), cfg.maxContext)
  }

  lemma OpeningShowsWindow(cfg: Config)
    ensures ShowsWindow(cfg, Opening(cfg), [])
  {
    assert Opening(cfg) + [] == Opening(cfg);
  }

  /** One more exchange, appended to a window and trimmed, is the window with one more exchange. */
  lemma ExchangeShowsWindow(cfg: Config, messages: seq<Message>, told: seq<Exchange>, e: Exchange)
    requires ShowsWindow(cfg, messages, told)
    ensures var said := [Message(User, e.user), Message(Assistant, e.answer)];
            ShowsWindow(cfg, Trim(messages + said, cfg.maxContext), told + [e])
  {
    var said := [Message(User, e.user), Message(Assistant, e.answer)];
    var full := Opening(cfg) + Flatten(told);
    FlattenAppend(told, [e]);
    assert [e][1..] == [];
    assert Flatten([e]) == said + Flatten([]);
    assert full + said == Opening(cfg) + Flatten(told + [e]);
    TrimIsWindow(messages + said, cfg.maxContext);
    WindowOfWindow(full, said, cfg.maxContext);
  }

  /** The messages a chat starts from are those kept for the conversation, or the opening ones. */
  lemma AccessedMessages(cfg: Config, cache: Cache, id: Id, now: int)
    requires cfg.maxConversations >= 1
    ensures id in Access(cfg, cache, id, now)
    ensures Access(cfg, cache, id, now)[id].messages == if id in cache then cache[id].messages else Opening(cfg)
  {
  }

  lemma ChatShowsWindow(cfg: Config, cache: Cache, past: seq<Exchange>, id: Id, user: string, reply: Reply, now: int)
    requires cfg.maxConversations >= 1
    requires ShowsWindow(cfg, if id in cache then cache[id].messages else Opening(cfg), past)
    ensures ShowsWindow(cfg, AfterChat(cfg, cache, id, user, reply, now)[id].messages,
                        if reply.Answer? then past + [Exchange(user, reply.content)] else past)
  {
    AccessedMessages(cfg, cache, id, now);
    if reply.Answer? {
      ExchangeShowsWindow(cfg, Access(cfg, cache, id, now)[id].messages, past, Exchange(user, reply.content));
    }
  }

  lemma ChatShowsWindows(cfg: Config, cache: Cache, history: History, call: Call, now: int)
    requires cfg.maxConversations >= 1 && ShowsWindows(cfg, cache, history) && call.Chat?
    ensures ShowsWindows(cfg, AfterCall(cfg, cache, call, now), HistoryAfter(cfg, cache, history, call, now))
  {
    var after, told := AfterCall(cfg, cache, call, now), HistoryAfter(cfg, cache, history, call, now);
    var past := if call.id in cache then history[call.id] else [];
    OpeningShowsWindow(cfg);
    ChatShowsWindow(cfg, cache, past, call.id, call.user, call.reply, now);
    assert ShowsWindow(cfg, after[call.id].messages, told[call.id]);
    forall id | id in after && id != call.id ensures ShowsWindow(cfg, after[id].messages, told[id]) {
      OthersKept(cfg, cache, call, id, now);
      assert told[id] == history[id];
    }
  }

  lemma OthersKept(cfg: Config, cache: Cache, call: Call, id: Id, now: int)
    requires cfg.maxConversations >= 1 && call.Chat? && id != call.id
    requires id in AfterCall(cfg, cache, call, now)
    ensures id in cache && AfterCall(cfg, cache, call, now)[id] == cache[id]
  {
  }

  lemma CallShowsWindows(cfg: Config, cache: Cache, history: History, call: Call, now: int)
    requires cfg.maxConversations >= 1 && ShowsWindows(cfg, cache, history)
    ensures ShowsWindows(cfg, AfterCall(cfg, cache, call, now), HistoryAfter(cfg, cache, history, call, now))
  {
    if call.Chat? {
      ChatShowsWindows(cfg, cache, history, call, now);
    }
  }

  /** A run of calls from an empty cache. */
  ghost function Run(cfg: Config, calls: seq<Call>, times: seq<int>): (Cache, History)
    requires |times| == |calls| && cfg.maxConversations >= 1
  {
    if calls == [] then (map[], map[])
    else
      var k := |calls| - 1;
      var (cache, history) := Run(cfg, calls[..k], times[..k]);
      (AfterCall(cfg, cache, calls[k], times[k]), HistoryAfter(cfg, cache, history, calls[k], times[k]))
  }

  /** Over any run of calls, conversations evicted, cleared and expired as may be. */
  lemma {:induction false} RunShowsWindows(cfg: Config, calls: seq<Call>, times: seq<int>)
    requires |times| == |calls| && cfg.maxConversations >= 1
    ensures ShowsWindows(cfg, Run(cfg, calls, times).0, Run(cfg, calls, times).1)
    decreases |calls|
  {
    if calls != [] {
      var k := |calls| - 1;
      RunShowsWindows(cfg, calls[..k], times[..k]);
      var (cache, history) := Run(cfg, calls[..k], times[..k]);
      CallShowsWindows(cfg, cache, history, calls[k], times[k]);
    }
  }

  lemma {:induction false} FlattenSuffix(exchanges: seq<Exchange>, n: nat)
    requires n <= |exchanges|
    ensures |Flatten(exchanges)| == 2 * |exchanges|
    ensures Flatten(exchanges)[2 * n..] == Flatten(exchanges[n..])
  {
    FlattenLength(exchanges);
    if n > 0 {
      FlattenSuffix(exchanges[1..], n - 1);
      assert Flatten(exchanges)[2..] == Flatten(exchanges[1..]);
      assert Flatten(exchanges)[2 * n..] == Flatten(exchanges)[2..][2 * (n - 1)..];
      assert exchanges[1..][n - 1..] == exchanges[n..];
    }
  }

  /** With a prompt and an even window, the prompt is followed by exactly the latest exchanges, whole. */
  lemma SlidingWindow(cfg: Config, exchanges: seq<Exchange>)
    requires cfg.prompt != "" && cfg.maxContext % 2 == 0
    ensures Window(Opening(cfg) + Flatten(exchanges), cfg.maxContext)
         == Opening(cfg) + Flatten(Latest(exchanges, cfg.maxContext / 2))
  {
    var n, full := cfg.maxContext / 2, Opening(cfg) + Flatten(exchanges);
    FlattenLength(exchanges);
    if n <= |exchanges| {
      var dropped := |exchanges| - n;
      FlattenSuffix(exchanges, dropped);
      assert full[1 + 2 * dropped..] == Flatten(exchanges)[2 * dropped..];
      if 2 * |exchanges| == cfg.maxContext {
        assert exchanges[0..] == exchanges;
      }
    }
  }

  /**
   * The prompt is followed by exactly the latest exchanges, whole, if and only if the window is
   * even or nothing has been dropped yet.
   */
  lemma WholeExchangesExactly(cfg: Config, exchanges: seq<Exchange>)
    requires cfg.prompt != ""
    ensures Window(Opening(cfg) + Flatten(exchanges), cfg.maxContext)
            == Opening(cfg) + Flatten(Latest(exchanges, cfg.maxContext / 2))
            <==> cfg.maxContext % 2 == 0 || 2 * |exchanges| <= cfg.maxContext
  {
    if cfg.maxContext % 2 == 0 {
      SlidingWindow(cfg, exchanges);
    } else {
      FlattenLength(exchanges);
      FlattenLength(Latest(exchanges, cfg.maxContext / 2));
      WindowIsLatest(Message(System, cfg.prompt), Flatten(exchanges), cfg.maxContext);
    }
  }

  /** In an odd window that has dropped something, the oldest message kept is an answer without its question. */
  lemma OddWindowCutsAnExchange(cfg: Config, exchanges: seq<Exchange>)
    requires cfg.prompt != "" && cfg.maxContext % 2 == 1 && cfg.maxContext < 2 * |exchanges|
    ensures |Window(Opening(cfg) + Flatten(exchanges), cfg.maxContext)| == cfg.maxContext + 1
    ensures Window(Opening(cfg) + Flatten(exchanges), cfg.maxContext)[1].role == Assistant
  {
    FlattenLength(exchanges);
    AnswerAtOddEnd(exchanges, cfg.maxContext);
    SecondOfWindow(Message(System, cfg.prompt), Flatten(exchanges), cfg.maxContext);
  }

  lemma AnswerAtOddEnd(exchanges: seq<Exchange>, max: nat)
    requires max % 2 == 1 && max < |Flatten(exchanges)| == 2 * |exchanges|
    ensures Flatten(exchanges)[|Flatten(exchanges)| - max].role == Assistant
  {
    OddDifference(|exchanges|, max);
    RolesAlternate(exchanges, 2 * |exchanges| - max);
  }

  lemma OddDifference(n: nat, m: nat)
    requires m % 2 == 1
    ensures (2 * n - m) % 2 == 1
  {
  }

  lemma SecondOfWindow(first: Message, others: seq<Message>, max: nat)
    requires 0 < max < |others|
    ensures |Window([first] + others, max)| == max + 1
    ensures Window([first] + others, max)[1] == others[|others| - max]
  {
    WindowIsLatest(first, others, max);
    assert Latest(others, max)[0] == others[|others| - max];
  }

  lemma {:induction false} RolesAlternate(exchanges: seq<Exchange>, i: nat)
    requires i < |Flatten(exchanges)|
    ensures Flatten(exchanges)[i].role == (if i % 2 == 0 then User else Assistant)
  {
    if i >= 2 {
      assert Flatten(exchanges)[2..] == Flatten(exchanges[1..]);
      RolesAlternate(exchanges[1..], i - 2);
    }
  }

  /** Without a prompt the place meant for it is taken by the first thing the user ever said. */
  lemma NoPromptKeepsFirstMessage(cfg: Config, exchanges: seq<Exchange>)
    requires cfg.prompt == "" && exchanges != []
    ensures Window(Opening(cfg) + Flatten(exchanges), cfg.maxContext)[0] == Message(User, exchanges[0].user)
  {
    assert Opening(cfg) + Flatten(exchanges) == Flatten(exchanges);
  }

  // ---------- whole runs ----------

  /** The exchanges that succeeded with one id among some calls. */
  function Successes(calls: seq<Call>, id: Id): seq<Exchange> {
    if calls == [] then []
    else
      var k := |calls| - 1;
      var before := Successes(calls[..k], id);
      if calls[k].Chat? && calls[k].id == id && calls[k].reply.Answer?
      then before + [Exchange(calls[k].user, calls[k].reply.content)]
      else before
  }

  /** The conversation is opened by call `from`, and live after it and after every later call. */
  ghost predicate LiveSince(cfg: Config, calls: seq<Call>, times: seq<int>, id: Id, from: nat)
    requires |times| == |calls| && cfg.maxConversations >= 1
    decreases |calls|
  {
    && from < |calls| && id in Run(cfg, calls, times).0
    && var k := |calls| - 1;
       if from == k then id !in Run(cfg, calls[..k], times[..k]).0
       else LiveSince(cfg, calls[..k], times[..k], id, from)
  }

  /** What the last call of a run adds to the history of a conversation that outlives it. */
  lemma HistoryStep(cfg: Config, calls: seq<Call>, times: seq<int>, id: Id)
    requires |times| == |calls| && cfg.maxConversations >= 1 && calls != []
    requires id in Run(cfg, calls, times).0
    ensures id in Run(cfg, calls, times).1
    ensures var k := |calls| - 1;
            var (cache, history) := Run(cfg, calls[..k], times[..k]);
            var past := if id in cache && id in history then history[id] else [];
            Run(cfg, calls, times).1[id] == past + Successes([calls[k]], id)
  {
    var k := |calls| - 1;
    var (cache, history) := Run(cfg, calls[..k], times[..k]);
    assert Run(cfg, calls, times).0 == AfterCall(cfg, cache, calls[k], times[k]);
    assert Run(cfg, calls, times).1 == HistoryAfter(cfg, cache, history, calls[k], times[k]);
    assert Successes([], id) == [];
    assert [calls[k]][..0] == [];
  }

  /** The history of a live conversation is every exchange that succeeded since it was opened. */
  lemma {:induction false} HistoryIsSuccesses(cfg: Config, calls: seq<Call>, times: seq<int>, id: Id, from: nat)
    requires |times| == |calls| && cfg.maxConversations >= 1
    requires LiveSince(cfg, calls, times, id, from)
    ensures id in Run(cfg, calls, times).1
    ensures Run(cfg, calls, times).1[id] == Successes(calls[from..], id)
    decreases |calls|
  {
    var k := |calls| - 1;
    HistoryStep(cfg, calls, times, id);
    SuccessesFrom(calls, id, from);
    if from < k {
      HistoryIsSuccesses(cfg, calls[..k], times[..k], id, from);
    }
  }

  lemma SuccessesFrom(calls: seq<Call>, id: Id, from: nat)
    requires from < |calls|
    ensures var k := |calls| - 1;
            Successes(calls[from..], id) == Successes(calls[..k][from..], id) + Successes([calls[k]], id)
    ensures from == |calls| - 1 ==> Successes(calls[..|calls| - 1][from..], id) == []
  {
    var k := |calls| - 1;
    SuccessesStep(calls[from..], id);
    assert calls[from..][k - from] == calls[k];
    assert calls[from..][..k - from] == calls[..k][from..];
  }

  lemma SuccessesStep(calls: seq<Call>, id: Id)
    requires calls != []
    ensures Successes(calls, id) == Successes(calls[..|calls| - 1], id) + Successes([calls[|calls| - 1]], id)
  {
    assert [calls[|calls| - 1]][..0] == [];
  }

  /**
   * Over any run of calls: a conversation that has stayed in the cache since call `from` holds
   * the prompt and then exactly the latest of the exchanges that succeeded in it since.
   */
  lemma ConversationIsSlidingWindow(cfg: Config, calls: seq<Call>, times: seq<int>, id: Id, from: nat)
    requires |times| == |calls| && cfg.maxConversations >= 1
    requires cfg.prompt != "" && cfg.maxContext % 2 == 0
    requires LiveSince(cfg, calls, times, id, from)
    ensures id in Run(cfg, calls, times).0
    ensures Run(cfg, calls, times).0[id].messages
         == [Message(System, cfg.prompt)] + Flatten(Latest(Successes(calls[from..], id), cfg.maxContext / 2))
  {
    RunShowsWindows(cfg, calls, times);
    HistoryIsSuccesses(cfg, calls, times, id, from);
    SlidingWindow(cfg, Successes(calls[from..], id));
  }

  /** For every window: a conversation shows its latest exchanges whole exactly when parity or length allows it. */
  lemma ConversationIsWholeExactly(cfg: Config, calls: seq<Call>, times: seq<int>, id: Id, from: nat)
    requires |times| == |calls| && cfg.maxConversations >= 1 && cfg.prompt != ""
    requires LiveSince(cfg, calls, times, id, from)
    ensures id in Run(cfg, calls, times).0
    ensures var told := Successes(calls[from..], id);
            Run(cfg, calls, times).0[id].messages == Opening(cfg) + Flatten(Latest(told, cfg.maxContext / 2))
            <==> cfg.maxContext % 2 == 0 || 2 * |told| <= cfg.maxContext
  {
    RunShowsWindows(cfg, calls, times);
    HistoryIsSuccesses(cfg, calls, times, id, from);
    WholeExchangesExactly(cfg, Successes(calls[from..], id));
  }

  function ChatIds(calls: seq<Call>): seq<Id>
    requires forall call :: call in calls ==> call.Chat?
  {
    seq(|calls|, i requires 0 <= i < |calls| => calls[i].id)
  }

  lemma {:induction false} OrderFromTimes(cache: Cache, after: Cache, ids: seq<Id>, latest: int)
    requires NewestFirst(cache, ids, latest) && after.Keys == cache.Keys
    requires forall j :: j in cache ==> after[j].lastAccess == cache[j].lastAccess
    ensures NewestFirst(after, ids, latest)
  {
    if ids != [] {
      OrderFromTimes(cache, after, ids[1..], cache[ids[0]].lastAccess);
    }
  }

  /** One chat keeps the cache equal to the newest part of the log of ids. */
  lemma ChatInOrder(cfg: Config, cache: Cache, ids: seq<Id>, latest: int, call: Call, now: int)
    requires cfg.maxConversations >= 1 && latest <= now && call.Chat? && Decided(cfg, cache, call.id)
    requires HoldsInOrder(cache, UpTo(Recent(ids), cfg.maxConversations), latest)
    ensures HoldsInOrder(AfterCall(cfg, cache, call, now), UpTo(Recent(ids + [call.id]), cfg.maxConversations), now)
  {
    AccessInOrder(cfg, cache, ids, latest, call.id, now);
    ChatIsOneAccess(cfg, cache, call.id, call.user, call.reply, now);
    OrderFromTimes(Access(cfg, cache, call.id, now), AfterCall(cfg, cache, call, now),
                   UpTo(Recent(ids + [call.id]), cfg.maxConversations), now);
  }

  /** No chat ever evicts a conversation while another is just as old. */
  ghost predicate UntiedChats(cfg: Config, calls: seq<Call>, times: seq<int>)
    requires |times| == |calls| && cfg.maxConversations >= 1
    decreases |calls|
  {
    calls == []
    || (var k := |calls| - 1;
        && UntiedChats(cfg, calls[..k], times[..k]) && calls[k].Chat?
        && Decided(cfg, Run(cfg, calls[..k], times[..k]).0, calls[k].id))
  }

  lemma ChatIdsLast(calls: seq<Call>)
    requires calls != [] && forall call :: call in calls ==> call.Chat?
    ensures var k := |calls| - 1;
            ChatIds(calls) == ChatIds(calls[..k]) + [calls[k].id]
  {
  }

  lemma RunLast(cfg: Config, calls: seq<Call>, times: seq<int>)
    requires |times| == |calls| && cfg.maxConversations >= 1 && calls != []
    ensures var k := |calls| - 1;
            Run(cfg, calls, times).0 == AfterCall(cfg, Run(cfg, calls[..k], times[..k]).0, calls[k], times[k])
  {
  }

  lemma SteadyPrefix(times: seq<int>, before: int)
    requires times != [] && Steady(times) && before <= times[0]
    ensures var k := |times| - 1;
            && Steady(times[..k]) && (k > 0 ==> before <= times[..k][0])
            && LastTime(times[..k], before) <= times[k]
  {
  }

  lemma {:induction false} ChatsInOrder(cfg: Config, calls: seq<Call>, times: seq<int>, before: int)
    requires |times| == |calls| && cfg.maxConversations >= 1
    requires Steady(times) && (times == [] || before <= times[0])
    requires UntiedChats(cfg, calls, times)
    requires forall call :: call in calls ==> call.Chat?
    ensures HoldsInOrder(Run(cfg, calls, times).0, UpTo(Recent(ChatIds(calls)), cfg.maxConversations),
                         LastTime(times, before))
    decreases |calls|
  {
    if calls != [] {
      var k := |calls| - 1;
      SteadyPrefix(times, before);
      ChatsInOrder(cfg, calls[..k], times[..k], before);
      ChatIdsLast(calls);
      RunLast(cfg, calls, times);
      ChatInOrder(cfg, Run(cfg, calls[..k], times[..k]).0, ChatIds(calls[..k]), LastTime(times[..k], before),
                  calls[k], times[k]);
    }
  }

  /** Whatever is answered, a run of chats keeps exactly the conversations most recently chatted in. */
  lemma ChatsKeepMostRecent(cfg: Config, calls: seq<Call>, times: seq<int>)
    requires |times| == |calls| && cfg.maxConversations >= 1
    requires Steady(times) && UntiedChats(cfg, calls, times)
    requires forall call :: call in calls ==> call.Chat?
    ensures Run(cfg, calls, times).0.Keys == Elements(UpTo(Recent(ChatIds(calls)), cfg.maxConversations))
  {
    ChatsInOrder(cfg, calls, times, if times == [] then 0 else times[0]);
  }
}
