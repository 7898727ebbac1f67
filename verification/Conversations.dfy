/**
 * The conversation cache of the chat-completion client: which conversations are kept, and
 * which messages of each. Times come from a clock that never goes back.
 */
module Conversations {
  import opened Collections

  /** Conversation ids are only ever compared. */
  type Id(==, !new)

  datatype Role = System | User | Assistant

  datatype Message = Message(role: Role, content: string)

  datatype Entry = Entry(messages: seq<Message>, lastAccess: int)

  type Cache = map<Id, Entry>

  datatype Config = Config(prompt: string, maxContext: nat, maxConversations: nat)

  function Opening(cfg: Config): seq<Message> {
    if cfg.prompt == "" then [] else [Message(System, cfg.prompt)]
  }

  // ---------- which conversations are kept ----------

  ghost predicate IsOldest(cache: Cache, id: Id) {
    id in cache && forall j :: j in cache ==> cache[id].lastAccess <= cache[j].lastAccess
  }

  lemma OldestExists(cache: Cache)
    requires cache != map[]
    ensures exists id :: IsOldest(cache, id)
    decreases |cache|
  {
    var some :| some in cache;
    var rest := cache - {some};
    if rest == map[] {
      assert forall j :: j in cache ==> j == some by {
        assert forall j :: j in cache && j != some ==> j in rest;
      }
      assert IsOldest(cache, some);
    } else {
      OldestExists(rest);
      var k :| IsOldest(rest, k);
      assert IsOldest(cache, if cache[some].lastAccess < cache[k].lastAccess then some else k) by {
        assert forall j :: j in cache && j != some ==> j in rest;
      }
    }
  }

  ghost function Oldest(cache: Cache): (id: Id)
    requires cache != map[]
    ensures IsOldest(cache, id)
  {
    OldestExists(cache);
    var id :| IsOldest(cache, id);
    id
  }

  /** The cache with room for one more: a full one loses its oldest entry. */
  ghost function Room(cfg: Config, cache: Cache): Cache
    requires cfg.maxConversations >= 1
  {
    if |cache| >= cfg.maxConversations then cache - {Oldest(cache)} else cache
  }

  /** get_conversation: a hit refreshes the entry, a miss makes room if needed and opens a new one. */
  ghost function Access(cfg: Config, cache: Cache, id: Id, now: int): Cache
    requires cfg.maxConversations >= 1
  {
    if id in cache then cache[id := cache[id].(lastAccess := now)]
    else Room(cfg, cache)[id := Entry(Opening(cfg), now)]
  }

  /** No other conversation is as old as the oldest. */
  ghost predicate OneOldest(cache: Cache) {
    forall i, j :: IsOldest(cache, i) && IsOldest(cache, j) ==> i == j
  }

  /** An access that leaves no choice of what to evict. */
  ghost predicate Decided(cfg: Config, cache: Cache, id: Id) {
    id in cache || |cache| < cfg.maxConversations || OneOldest(cache)
  }

  // ---------- the least recently used ones go ----------

  function WithoutId(s: seq<Id>, id: Id): seq<Id> {
    if s == [] then [] else (if s[0] == id then [] else [s[0]]) + WithoutId(s[1..], id)
  }

  /** The different ids of an access log, the most recently used first. */
  function Recent(log: seq<Id>): seq<Id> {
    if log == [] then []
    else
      var last := log[|log| - 1];
      [last] + WithoutId(Recent(log[..|log| - 1]), last)
  }

  /** The listed conversations were last used in this order, newest first, none after `latest`. */
  ghost predicate NewestFirst(cache: Cache, ids: seq<Id>, latest: int) {
    ids != [] ==>
      && ids[0] in cache && cache[ids[0]].lastAccess <= latest
      && NewestFirst(cache, ids[1..], cache[ids[0]].lastAccess)
  }

  /** The cache holds exactly the listed conversations. */
  ghost predicate HoldsInOrder(cache: Cache, ids: seq<Id>, latest: int) {
    cache.Keys == Elements(ids) && NewestFirst(cache, ids, latest)
  }

  lemma {:induction false} WithoutMeans(s: seq<Id>, id: Id)
    requires NoDuplicates(s)
    ensures NoDuplicates(WithoutId(s, id)) && Elements(WithoutId(s, id)) == Elements(s) - {id}
    ensures id !in s ==> WithoutId(s, id) == s
  {
    if s != [] {
      FirstElement(s);
      WithoutMeans(s[1..], id);
      var r := WithoutId(s, id);
      if s[0] == id {
        assert id !in Elements(s[1..]);
        assert r == WithoutId(s[1..], id);
      } else {
        assert r[0] == s[0] && r[1..] == WithoutId(s[1..], id);
        FirstElement(r);
        assert s[0] !in Elements(r[1..]);
      }
    }
  }

  lemma {:induction false} RecentMeans(log: seq<Id>)
    ensures NoDuplicates(Recent(log)) && Elements(Recent(log)) == Elements(log)
    decreases |log|
  {
    if log != [] {
      var before, last := log[..|log| - 1], log[|log| - 1];
      assert log == before + [last];
      RecentMeans(before);
      WithoutMeans(Recent(before), last);
      var r := Recent(log);
      assert r[0] == last && r[1..] == WithoutId(Recent(before), last);
      FirstElement(r);
      assert last !in Elements(r[1..]);
      assert Elements(log) == Elements(before) + {last};
    }
  }

  /** Moving an id to the front of a list, seen in its first `n` elements. */
  lemma {:induction false} MoveToFront(m: seq<Id>, id: Id, n: nat)
    requires NoDuplicates(m)
    ensures var newest := UpTo(m, n);
            UpTo(WithoutId(m, id), if id in newest then n - 1 else n) == WithoutId(newest, id)
  {
    if m != [] && n > 0 {
      var rest := UpTo(m[1..], n - 1);
      assert m == [m[0]] + m[1..];
      FirstUpTo(m[0], m[1..], n);
      if m[0] == id {
        FrontAlready(m, n);
      } else {
        MoveToFront(m[1..], id, n - 1);
        FirstUpTo(m[0], WithoutId(m[1..], id), if id in rest then n - 1 else n);
        assert WithoutId([m[0]] + rest, id) == [m[0]] + WithoutId(rest, id);
      }
    }
  }

  lemma WithoutHead(x: Id, s: seq<Id>)
    requires x !in Elements(s)
    ensures WithoutId([x] + s, x) == s
  {
    assert ([x] + s)[1..] == s;
    WithoutAbsent(s, x);
  }

  lemma FrontAlready(m: seq<Id>, n: nat)
    requires NoDuplicates(m) && m != [] && n > 0
    ensures UpTo(WithoutId(m, m[0]), n - 1) == WithoutId(UpTo(m, n), m[0])
  {
    var x, rest := m[0], m[1..];
    assert m == [x] + rest && x !in Elements(rest);
    PrefixElements(rest, n - 1);
    WithoutHead(x, rest);
    WithoutHead(x, UpTo(rest, n - 1));
    FirstUpTo(x, rest, n);
  }

  lemma PrefixElements(s: seq<Id>, n: nat)
    ensures Elements(UpTo(s, n)) <= Elements(s)
  {
  }

  lemma {:induction false} WithoutAbsent(s: seq<Id>, id: Id)
    requires id !in Elements(s)
    ensures WithoutId(s, id) == s
  {
    if s != [] {
      FirstElement(s);
      WithoutAbsent(s[1..], id);
    }
  }

  /** After an access, the newest `n` ids are the one just used and the rest of the old newest. */
  lemma NewestAfter(log: seq<Id>, id: Id, n: nat)
    requires n >= 1
    ensures var newest := UpTo(Recent(log), n);
            var rest := if id in newest then WithoutId(newest, id) else UpTo(newest, n - 1);
            UpTo(Recent(log + [id]), n) == [id] + rest
  {
    var m := Recent(log);
    var newest, moved := UpTo(m, n), WithoutId(m, id);
    RecentMeans(log);
    MoveToFront(m, id, n);
    assert (log + [id])[..|log|] == log;
    assert Recent(log + [id]) == [id] + moved;
    assert UpTo([id] + moved, n) == [id] + UpTo(moved, n - 1);
    if id !in newest {
      WithoutAbsent(newest, id);
      assert UpTo(UpTo(moved, n), n - 1) == UpTo(moved, n - 1);
    }
  }

  lemma {:induction false} OrderFromLater(cache: Cache, ids: seq<Id>, latest: int, later: int)
    requires NewestFirst(cache, ids, latest) && latest <= later
    ensures NewestFirst(cache, ids, later)
  {
  }

  /** Dropping an id from the list, and changing other entries of the cache, keeps the order. */
  lemma {:induction false} OrderWithout(cache: Cache, after: Cache, ids: seq<Id>, id: Id, latest: int)
    requires NewestFirst(cache, ids, latest)
    requires forall j :: j in cache && j != id ==> j in after && after[j] == cache[j]
    ensures NewestFirst(after, WithoutId(ids, id), latest)
  {
    if ids != [] {
      OrderWithout(cache, after, ids[1..], id, cache[ids[0]].lastAccess);
      var rest := WithoutId(ids[1..], id);
      if ids[0] == id {
        OrderFromLater(after, rest, cache[ids[0]].lastAccess, latest);
        assert WithoutId(ids, id) == rest;
      } else {
        assert WithoutId(ids, id)[1..] == rest;
      }
    }
  }

  lemma {:induction false} OrderOfPrefix(cache: Cache, after: Cache, ids: seq<Id>, n: nat, latest: int)
    requires NewestFirst(cache, ids, latest)
    requires forall j :: j in UpTo(ids, n) ==> j in cache && j in after && after[j] == cache[j]
    ensures NewestFirst(after, UpTo(ids, n), latest)
  {
    if ids != [] && n > 0 {
      assert UpTo(ids, n)[1..] == UpTo(ids[1..], n - 1);
      OrderOfPrefix(cache, after, ids[1..], n - 1, cache[ids[0]].lastAccess);
    }
  }

  lemma {:induction false} OrderBound(cache: Cache, ids: seq<Id>, latest: int)
    requires NewestFirst(cache, ids, latest)
    ensures forall j :: j in ids ==> j in cache && cache[j].lastAccess <= latest
  {
    if ids != [] {
      OrderBound(cache, ids[1..], cache[ids[0]].lastAccess);
      assert ids == [ids[0]] + ids[1..];
    }
  }

  /** The last of the list is as old as any other. */
  lemma {:induction false} LastIsOldest(cache: Cache, ids: seq<Id>, latest: int)
    requires NewestFirst(cache, ids, latest) && ids != []
    ensures forall j :: j in ids ==> j in cache
    ensures forall j :: j in ids ==> cache[ids[|ids| - 1]].lastAccess <= cache[j].lastAccess
  {
    OrderBound(cache, ids, latest);
    assert ids == [ids[0]] + ids[1..];
    if |ids| > 1 {
      LastIsOldest(cache, ids[1..], cache[ids[0]].lastAccess);
      OrderBound(cache, ids[1..], cache[ids[0]].lastAccess);
      assert ids[|ids| - 1] in ids[1..];
    }
  }

  lemma {:induction false} DistinctSize(s: seq<Id>)
    requires NoDuplicates(s)
    ensures |Elements(s)| == |s|
  {
    if s != [] {
      FirstElement(s);
      DistinctSize(s[1..]);
    } else {
      assert Elements(s) == {};
    }
  }

  lemma HitInOrder(cache: Cache, ids: seq<Id>, latest: int, id: Id, now: int)
    requires HoldsInOrder(cache, ids, latest) && NoDuplicates(ids) && id in ids && latest <= now
    ensures var after := cache[id := Entry(cache[id].messages, now)];
            HoldsInOrder(after, [id] + WithoutId(ids, id), now)
  {
    assert id in Elements(ids);
    var after, rest := cache[id := Entry(cache[id].messages, now)], WithoutId(ids, id);
    WithoutMeans(ids, id);
    FirstElement([id] + rest);
    assert ([id] + rest)[1..] == rest;
    OrderWithout(cache, after, ids, id, latest);
    OrderFromLater(after, rest, latest, now);
  }

  lemma LastIsAnOldest(cache: Cache, ids: seq<Id>, latest: int)
    requires HoldsInOrder(cache, ids, latest) && ids != []
    ensures IsOldest(cache, ids[|ids| - 1])
  {
    assert ids[|ids| - 1] in Elements(ids);
    LastIsOldest(cache, ids, latest);
    assert forall j :: j in cache ==> j in Elements(ids);
  }

  lemma {:induction false} DropLast(s: seq<Id>)
    requires NoDuplicates(s) && s != []
    ensures Elements(s[..|s| - 1]) == Elements(s) - {s[|s| - 1]}
  {
    if |s| == 1 {
      assert s == [s[0]] && s[..0] == [];
      assert Elements(s) == {s[0]};
    } else {
      var t := s[1..];
      DropLast(t);
      FirstElement(s);
      FirstElement(s[..|s| - 1]);
      assert s[..|s| - 1][1..] == t[..|t| - 1];
      assert t[|t| - 1] in t;
      assert s[0] !in Elements(t);
    }
  }

  lemma RoomInOrder(cfg: Config, cache: Cache, ids: seq<Id>, latest: int)
    requires HoldsInOrder(cache, ids, latest) && NoDuplicates(ids)
    requires cfg.maxConversations >= 1 && |ids| <= cfg.maxConversations
    requires |cache| < cfg.maxConversations || OneOldest(cache)
    ensures HoldsInOrder(Room(cfg, cache), UpTo(ids, cfg.maxConversations - 1), latest)
  {
    var n := cfg.maxConversations;
    DistinctSize(ids);
    if |ids| == n {
      LastIsAnOldest(cache, ids, latest);
      assert IsOldest(cache, Oldest(cache));
      DropLast(ids);
    }
    var room, kept := Room(cfg, cache), UpTo(ids, n - 1);
    assert room.Keys == Elements(kept);
    forall j | j in kept ensures j in cache && j in room && room[j] == cache[j] {
      assert j in Elements(kept);
    }
    OrderOfPrefix(cache, room, ids, n - 1, latest);
  }

  lemma AddedInOrder(cache: Cache, ids: seq<Id>, latest: int, id: Id, entry: Entry)
    requires HoldsInOrder(cache, ids, latest) && id !in Elements(ids) && latest <= entry.lastAccess
    ensures HoldsInOrder(cache[id := entry], [id] + ids, entry.lastAccess)
  {
    FirstElement([id] + ids);
    assert ([id] + ids)[1..] == ids;
    WithoutAbsent(ids, id);
    OrderWithout(cache, cache[id := entry], ids, id, latest);
    OrderFromLater(cache[id := entry], ids, latest, entry.lastAccess);
  }

  lemma MissInOrder(cfg: Config, cache: Cache, ids: seq<Id>, latest: int, id: Id, now: int)
    requires HoldsInOrder(cache, ids, latest) && NoDuplicates(ids) && id !in Elements(ids) && latest <= now
    requires |cache| < cfg.maxConversations || OneOldest(cache)
    requires cfg.maxConversations >= 1 && |ids| <= cfg.maxConversations
    ensures HoldsInOrder(Access(cfg, cache, id, now), [id] + UpTo(ids, cfg.maxConversations - 1), now)
  {
    RoomInOrder(cfg, cache, ids, latest);
    PrefixElements(ids, cfg.maxConversations - 1);
    AddedInOrder(Room(cfg, cache), UpTo(ids, cfg.maxConversations - 1), latest, id, Entry(Opening(cfg), now));
  }

  /** One access, when the cache holds the listed conversations. */
  lemma AccessListed(cfg: Config, cache: Cache, ids: seq<Id>, latest: int, id: Id, now: int)
    requires cfg.maxConversations >= 1 && latest <= now && Decided(cfg, cache, id)
    requires HoldsInOrder(cache, ids, latest) && NoDuplicates(ids) && |ids| <= cfg.maxConversations
    ensures HoldsInOrder(Access(cfg, cache, id, now),
                         [id] + (if id in ids then WithoutId(ids, id) else UpTo(ids, cfg.maxConversations - 1)), now)
  {
    if id in ids {
      assert id in Elements(ids);
      HitInOrder(cache, ids, latest, id, now);
    } else {
      assert id !in Elements(ids);
      MissInOrder(cfg, cache, ids, latest, id, now);
    }
  }

  /** One access keeps the cache equal to the newest part of the log. */
  lemma AccessInOrder(cfg: Config, cache: Cache, log: seq<Id>, latest: int, id: Id, now: int)
    requires cfg.maxConversations >= 1 && latest <= now && Decided(cfg, cache, id)
    requires HoldsInOrder(cache, UpTo(Recent(log), cfg.maxConversations), latest)
    ensures HoldsInOrder(Access(cfg, cache, id, now), UpTo(Recent(log + [id]), cfg.maxConversations), now)
  {
    var newest := UpTo(Recent(log), cfg.maxConversations);
    assert NoDuplicates(newest) by {
      RecentMeans(log);
      PrefixDistinct(Recent(log), cfg.maxConversations);
    }
    AccessListed(cfg, cache, newest, latest, id, now);
    NewestAfter(log, id, cfg.maxConversations);
  }

  lemma {:induction false} PrefixDistinct(s: seq<Id>, n: nat)
    requires NoDuplicates(s)
    ensures NoDuplicates(UpTo(s, n))
  {
    if s != [] && n > 0 {
      assert UpTo(s, n)[1..] == UpTo(s[1..], n - 1);
      PrefixDistinct(s[1..], n - 1);
      PrefixElements(s[1..], n - 1);
      assert s[0] !in Elements(s[1..]);
      assert s[0] !in Elements(UpTo(s[1..], n - 1));
    }
  }

  /** A run of accesses, at the instants the clock shows. */
  ghost function Accesses(cfg: Config, log: seq<Id>, times: seq<int>): Cache
    requires |times| == |log| && cfg.maxConversations >= 1
  {
    if log == [] then map[]
    else
      var k := |log| - 1;
      Access(cfg, Accesses(cfg, log[..k], times[..k]), log[k], times[k])
  }

  /** The clock never goes back. */
  ghost predicate Steady(times: seq<int>) {
    forall i, j :: 0 <= i < j < |times| ==> times[i] <= times[j]
  }

  /** Nothing is ever evicted while another conversation is just as old. */
  ghost predicate Untied(cfg: Config, log: seq<Id>, times: seq<int>)
    requires |times| == |log| && cfg.maxConversations >= 1
    decreases |log|
  {
    log == []
    || (var k := |log| - 1;
        Untied(cfg, log[..k], times[..k]) && Decided(cfg, Accesses(cfg, log[..k], times[..k]), log[k]))
  }

  /** The last instant of a run, or `before` if nothing has happened. */
  function LastTime(times: seq<int>, before: int): int {
    if times == [] then before else times[|times| - 1]
  }

  lemma {:induction false} RunInOrder(cfg: Config, log: seq<Id>, times: seq<int>, before: int)
    requires |times| == |log| && cfg.maxConversations >= 1 && Steady(times) && Untied(cfg, log, times)
    requires times == [] || before <= times[0]
    ensures HoldsInOrder(Accesses(cfg, log, times), UpTo(Recent(log), cfg.maxConversations), LastTime(times, before))
    decreases |log|
  {
    if log != [] {
      var k := |log| - 1;
      RunInOrder(cfg, log[..k], times[..k], before);
      assert log[..k] + [log[k]] == log;
      AccessInOrder(cfg, Accesses(cfg, log[..k], times[..k]), log[..k], LastTime(times[..k], before), log[k], times[k]);
    }
  }

  /** The cache after any run holds exactly the most recently used different ids of its access log. */
  lemma LruRefinement(cfg: Config, log: seq<Id>, times: seq<int>)
    requires |times| == |log| && cfg.maxConversations >= 1 && Steady(times) && Untied(cfg, log, times)
    ensures Accesses(cfg, log, times).Keys == Elements(UpTo(Recent(log), cfg.maxConversations))
  {
    RunInOrder(cfg, log, times, if times == [] then 0 else times[0]);
  }

  // ---------- a clock that moves between accesses ----------

  ghost predicate Ticking(times: seq<int>) {
    forall i, j :: 0 <= i < j < |times| ==> times[i] < times[j]
  }

  /** No two conversations were last used at the same instant, and none after `latest`. */
  ghost predicate DistinctTimes(cache: Cache, latest: int) {
    && (forall j :: j in cache ==> cache[j].lastAccess <= latest)
    && (forall i, j :: i in cache && j in cache && i != j ==> cache[i].lastAccess != cache[j].lastAccess)
  }

  lemma AccessKeepsDistinct(cfg: Config, cache: Cache, latest: int, id: Id, now: int)
    requires cfg.maxConversations >= 1 && DistinctTimes(cache, latest) && latest < now
    ensures DistinctTimes(Access(cfg, cache, id, now), now) && OneOldest(cache)
  {
    var after := Access(cfg, cache, id, now);
    assert after[id].lastAccess == now;
    assert forall j :: j in after && j != id ==> j in cache && after[j] == cache[j];
  }

  lemma {:induction false} RunKeepsDistinct(cfg: Config, log: seq<Id>, times: seq<int>, before: int)
    requires |times| == |log| && cfg.maxConversations >= 1 && Ticking(times)
    requires times == [] || before < times[0]
    ensures DistinctTimes(Accesses(cfg, log, times), LastTime(times, before)) && Untied(cfg, log, times)
    decreases |log|
  {
    if log != [] {
      var k := |log| - 1;
      RunKeepsDistinct(cfg, log[..k], times[..k], before);
      AccessKeepsDistinct(cfg, Accesses(cfg, log[..k], times[..k]), LastTime(times[..k], before), log[k], times[k]);
    }
  }

  /** If the clock moves between accesses there are no ties. */
  lemma TickingIsUntied(cfg: Config, log: seq<Id>, times: seq<int>)
    requires |times| == |log| && cfg.maxConversations >= 1 && Ticking(times)
    ensures Steady(times) && Untied(cfg, log, times)
  {
    RunKeepsDistinct(cfg, log, times, if times == [] then 0 else times[0] - 1);
  }

  /** Where an id was last used: the position after its last occurrence, 0 if there is none. */
  function LastUse(log: seq<Id>, id: Id): nat {
    if log == [] then 0 else if log[|log| - 1] == id then |log| else LastUse(log[..|log| - 1], id)
  }

  /** Ids listed by last use, latest first. */
  ghost predicate ByLastUse(log: seq<Id>, ids: seq<Id>, latest: int) {
    ids != [] ==> 0 < LastUse(log, ids[0]) <= latest && ByLastUse(log, ids[1..], LastUse(log, ids[0]) - 1)
  }

  lemma {:induction false} ByLastUseWithout(log: seq<Id>, ids: seq<Id>, id: Id, latest: int, later: int)
    requires ByLastUse(log, ids, latest) && latest <= later
    ensures ByLastUse(log + [id], WithoutId(ids, id), later)
  {
    if ids != [] {
      assert (log + [id])[..|log|] == log;
      if ids[0] == id {
        ByLastUseWithout(log, ids[1..], id, LastUse(log, id) - 1, later);
        assert WithoutId(ids, id) == WithoutId(ids[1..], id);
      } else {
        ByLastUseWithout(log, ids[1..], id, LastUse(log, ids[0]) - 1, LastUse(log, ids[0]) - 1);
        assert WithoutId(ids, id)[1..] == WithoutId(ids[1..], id);
      }
    }
  }

  /** `Recent` lists every id of the log exactly once, in the order of last use. */
  lemma {:induction false} RecentIsByLastUse(log: seq<Id>)
    ensures NoDuplicates(Recent(log)) && Elements(Recent(log)) == Elements(log)
    ensures ByLastUse(log, Recent(log), |log|)
    decreases |log|
  {
    RecentMeans(log);
    if log != [] {
      var before, last := log[..|log| - 1], log[|log| - 1];
      assert log == before + [last];
      RecentIsByLastUse(before);
      ByLastUseWithout(before, Recent(before), last, |before|, |log| - 1);
      assert Recent(log)[1..] == WithoutId(Recent(before), last);
    }
  }

  /** A hit changes the time of its own entry and nothing else. */
  lemma HitChangesNothingElse(cfg: Config, cache: Cache, id: Id, now: int)
    requires cfg.maxConversations >= 1 && id in cache
    ensures var after := Access(cfg, cache, id, now);
            && after.Keys == cache.Keys && after[id] == Entry(cache[id].messages, now)
            && (forall j :: j in cache && j != id ==> after[j] == cache[j])
  {
  }
}
