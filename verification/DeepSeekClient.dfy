/** The chat-completion client in place: the map of conversations and the loops over it. */
module DeepSeekClient {
  import opened Collections
  import opened Conversations
  import opened ChatClient
  import opened Clock

  /** What the caller of chat_sync gets. */
  datatype Response = NotConfigured | Replied(reply: Reply)

  /** A hit refreshes; a miss opens a conversation, and if the cache was full one of the oldest is gone. */
  ghost predicate Accessed(cfg: Config, cache: Cache, id: Id, now: int, after: Cache) {
    if id in cache then after == cache[id := cache[id].(lastAccess := now)]
    else if |cache| < cfg.maxConversations then after == cache[id := Entry(Opening(cfg), now)]
    else exists oldest :: IsOldest(cache, oldest) && after == (cache - {oldest})[id := Entry(Opening(cfg), now)]
  }

  /** When one conversation is the oldest, get_conversation is the specified access. */
  lemma AccessedIsAccess(cfg: Config, cache: Cache, id: Id, now: int, after: Cache)
    requires cfg.maxConversations >= 1 && Decided(cfg, cache, id)
    ensures Accessed(cfg, cache, id, now, after) <==> after == Access(cfg, cache, id, now)
  {
    if id !in cache && |cache| >= cfg.maxConversations {
      assert IsOldest(cache, Oldest(cache));
    }
  }

  /** A tie lets another conversation go than the least recently used. */
  lemma TieEvictsAnother(cfg: Config, cache: Cache, ids: seq<Id>, latest: int, id: Id, now: int)
    returns (after: Cache)
    requires HoldsInOrder(cache, ids, latest) && NoDuplicates(ids) && |ids| == cfg.maxConversations >= 1
    requires id !in cache && !OneOldest(cache)
    ensures Accessed(cfg, cache, id, now, after)
    ensures after.Keys != Elements([id] + UpTo(ids, cfg.maxConversations - 1))
  {
    var n := cfg.maxConversations;
    DistinctSize(ids);
    assert |cache| == |cache.Keys| == n;
    var i, j :| IsOldest(cache, i) && IsOldest(cache, j) && i != j;
    var victim := if i == ids[n - 1] then j else i;
    after := (cache - {victim})[id := Entry(Opening(cfg), now)];
    assert victim in Elements(ids);
    var k :| 0 <= k < n && ids[k] == victim;
    var expected := [id] + UpTo(ids, n - 1);
    assert expected[k + 1] == victim;
    assert victim in Elements(expected) && victim !in after.Keys;
  }

  /**
   * A miss in a full cache keeps the most recently used conversations, whichever of the oldest is
   * found first, if and only if only one is the oldest.
   */
  lemma EvictionExactly(cfg: Config, cache: Cache, ids: seq<Id>, latest: int, id: Id, now: int)
    requires HoldsInOrder(cache, ids, latest) && NoDuplicates(ids) && |ids| == cfg.maxConversations >= 1
    requires id !in cache && latest <= now
    ensures (forall after :: Accessed(cfg, cache, id, now, after) ==>
                               after.Keys == Elements([id] + UpTo(ids, cfg.maxConversations - 1)))
            <==> OneOldest(cache)
  {
    if OneOldest(cache) {
      MissInOrder(cfg, cache, ids, latest, id, now);
      forall after | Accessed(cfg, cache, id, now, after)
        ensures after.Keys == Elements([id] + UpTo(ids, cfg.maxConversations - 1))
      {
        AccessedIsAccess(cfg, cache, id, now, after);
      }
    } else {
      var after := TieEvictsAnother(cfg, cache, ids, latest, id, now);
    }
  }

  class DeepSeekClient {
    const cfg: Config
    var apiKey: string
    var conversations: Cache

    constructor (cfg: Config)
      ensures this.cfg == cfg && apiKey == "" && conversations == map[]
    {
      this.cfg := cfg;
      apiKey, conversations := "", map[];
    }

    method SetApiKey(key: string)
      modifies this`apiKey
      ensures apiKey == key
    {
      apiKey := key;
    }

    /** Looks at every conversation, in no particular order. */
    method FindOldest() returns (oldest: Id)
      requires conversations != map[]
      ensures IsOldest(conversations, oldest)
    {
      oldest :| oldest in conversations.Keys;
      var left := conversations.Keys;
      while left != {}
        invariant left <= conversations.Keys && oldest in conversations
        invariant forall j :: j in conversations && j !in left ==>
                                conversations[oldest].lastAccess <= conversations[j].lastAccess
        decreases |left|
      {
        var next :| next in left;
        if conversations[next].lastAccess < conversations[oldest].lastAccess {
          oldest := next;
        }
        left := left - {next};
      }
    }

    method GetConversation(id: Id, now: int)
      requires cfg.maxConversations >= 1
      modifies this`conversations
      ensures Accessed(cfg, old(conversations), id, now, conversations)
    {
      if id in conversations {
        conversations := conversations[id := conversations[id].(lastAccess := now)];
      } else {
        if |conversations| >= cfg.maxConversations {
          var oldest := FindOldest();
          conversations := conversations - {oldest};
        }
        var entry := Entry([], now);
        if cfg.prompt != "" {
          entry := entry.(messages := [Message(System, cfg.prompt)]);
        }
        conversations := conversations[id := entry];
      }
    }

    /** Appends a message to a conversation. */
    method Append(id: Id, message: Message)
      requires id in conversations
      modifies this`conversations
      ensures var was := old(conversations)[id];
              conversations == old(conversations)[id := was.(messages := was.messages + [message])]
    {
      conversations := conversations[id := conversations[id].(messages := conversations[id].messages + [message])];
    }

    /** Removes the last message of a conversation. */
    method PopBack(id: Id)
      requires id in conversations && conversations[id].messages != []
      modifies this`conversations
      ensures var was := old(conversations)[id];
              conversations == old(conversations)[id := was.(messages := was.messages[..|was.messages| - 1])]
    {
      var messages := conversations[id].messages;
      conversations := conversations[id := conversations[id].(messages := messages[..|messages| - 1])];
    }

    method TrimContext(id: Id)
      requires id in conversations
      modifies this`conversations
      ensures var was := old(conversations)[id];
              conversations == old(conversations)[id := was.(messages := Trim(was.messages, cfg.maxContext))]
    {
      while |conversations[id].messages| > cfg.maxContext + 1
        invariant conversations.Keys == old(conversations).Keys
        invariant conversations == old(conversations)[id := conversations[id]]
        invariant conversations[id].lastAccess == old(conversations)[id].lastAccess
        invariant Trim(conversations[id].messages, cfg.maxContext)
               == Trim(old(conversations)[id].messages, cfg.maxContext)
        decreases |conversations[id].messages|
      {
        var messages := conversations[id].messages;
        conversations := conversations[id := conversations[id].(messages := [messages[0]] + messages[2..])];
      }
    }

    /** The part of chat_sync that works on the conversation it has been given. */
    method Ask(user: string, id: Id, service: seq<Message> -> Reply) returns (reply: Reply)
      requires id in conversations
      modifies this`conversations
      ensures reply == service(old(conversations)[id].messages + [Message(User, user)])
      ensures conversations == Answered(cfg, old(conversations), id, user, reply)
    {
      ghost var messages := conversations[id].messages;
      Append(id, Message(User, user));
      reply := service(conversations[id].messages);
      match reply {
        case Answer(content) =>
          Append(id, Message(Assistant, content));
          assert conversations[id].messages == messages + [Message(User, user), Message(Assistant, content)];
          TrimContext(id);
        case _ =>
          PopBack(id);
          assert (messages + [Message(User, user)])[..|messages|] == messages;
          assert conversations == old(conversations);
      }
    }

    /** `service` stands for the remote model: a reply to the messages it is sent. */
    method ChatSync(user: string, id: Id, service: seq<Message> -> Reply, now: int) returns (response: Response)
      requires cfg.maxConversations >= 1
      modifies this`conversations
      ensures apiKey == "" ==> response == NotConfigured && conversations == old(conversations)
      ensures apiKey != "" ==> exists accessed: Cache ::
          && Accessed(cfg, old(conversations), id, now, accessed) && id in accessed
          && response == Replied(service(accessed[id].messages + [Message(User, user)]))
          && conversations == Answered(cfg, accessed, id, user, response.reply)
    {
      if apiKey == "" {
        return NotConfigured;
      }
      GetConversation(id, now);
      var reply := Ask(user, id, service);
      response := Replied(reply);
    }

    method ClearConversation(id: Id)
      modifies this`conversations
      ensures conversations == old(conversations) - {id}
    {
      conversations := conversations - {id};
    }

    method ClearAllConversations()
      modifies this`conversations
      ensures conversations == map[]
    {
      conversations := map[];
    }

    method CleanupExpiredConversations(maxAge: int, now: int)
      modifies this`conversations
      ensures conversations == AfterCleanup(old(conversations), maxAge, now)
    {
      var left := conversations.Keys;
      while left != {}
        invariant left <= conversations.Keys <= old(conversations).Keys
        invariant forall j :: j in conversations ==> conversations[j] == old(conversations)[j]
        invariant forall j :: j in old(conversations) && j !in left ==>
                    (j in conversations <==> WholeSeconds(now - old(conversations)[j].lastAccess) <= maxAge)
        decreases |left|
      {
        var next :| next in left;
        if WholeSeconds(now - conversations[next].lastAccess) > maxAge {
          conversations := conversations - {next};
        }
        left := left - {next};
      }
    }
  }

  /** When there is no tie, what chat_sync does in place is what the runs of calls are made of. */
  lemma ChatSyncIsCall(cfg: Config, cache: Cache, accessed: Cache, id: Id, user: string, reply: Reply, now: int)
    requires cfg.maxConversations >= 1 && Decided(cfg, cache, id)
    requires Accessed(cfg, cache, id, now, accessed)
    ensures id in accessed
    ensures Answered(cfg, accessed, id, user, reply) == AfterCall(cfg, cache, Chat(id, user, reply), now)
  {
    AccessedIsAccess(cfg, cache, id, now, accessed);
  }

  /** A clock that moves on between calls keeps the times distinct, so that there are no ties. */
  lemma CallKeepsDistinct(cfg: Config, cache: Cache, latest: int, call: Call, now: int)
    requires cfg.maxConversations >= 1 && DistinctTimes(cache, latest) && latest < now
    ensures DistinctTimes(AfterCall(cfg, cache, call, now), now) && OneOldest(cache)
  {
    if call.Chat? {
      ChatIsOneAccess(cfg, cache, call.id, call.user, call.reply, now);
      AccessKeepsDistinct(cfg, cache, latest, call.id, now);
    }
  }
}
