/** The Twitter side of the pipeline: resolving a handle to a user id through
    the handle cache, fetching a user's last tweets, and the time-window filter. */
module TwitterService {
  import opened Wrappers
  import opened Text
  import opened Seqs
  import opened Records
  import opened Store

  // ------------------------------------------------------- Normalisation

  /** The cache key of a handle: the first '@' removed, then lowercased. */
  function Normalize(handle: string): string {
    Lower(RemoveFirst(handle, '@'))
  }

  lemma LowerAppend(a: string, b: string)
    ensures Lower(a + b) == Lower(a) + Lower(b)
  {
    assert forall i :: 0 <= i < |a + b| ==> Lower(a + b)[i] == (Lower(a) + Lower(b))[i];
  }

  /** Only the first '@' goes, wherever it stands; a later '@' stays. */
  lemma NormalizeCases(handle: string)
    ensures '@' !in handle ==> Normalize(handle) == Lower(handle)
    ensures '@' in handle ==>
      var i := FirstIndex(handle, '@');
      Normalize(handle) == Lower(handle[..i]) + Lower(handle[i + 1..])
  {
    if '@' in handle {
      var i := FirstIndex(handle, '@');
      LowerAppend(handle[..i], handle[i + 1..]);
    }
  }

  /** Of two leading '@' only the first goes. */
  lemma NormalizeDoubleAt()
    ensures Normalize("@@Foo") == "@foo"
  {
    assert RemoveFirst("@@Foo", '@') == "@Foo";
    var l := Lower("@Foo");
    assert l[0] == '@' && l[1] == 'f' && l[2] == 'o' && l[3] == 'o';
  }

  /** An '@' inside the handle is removed when it is the only one. */
  lemma NormalizeInnerAt()
    ensures Normalize("a@B") == "ab"
  {
    assert RemoveFirst("@B", '@') == "B";
    assert RemoveFirst("a@B", '@') == "aB";
    var l := Lower("aB");
    assert l[0] == 'a' && l[1] == 'b';
  }

  /** Removing the first '@' and lowercasing can be done in either order. */
  lemma {:induction false} RemoveFirstLower(h: string)
    ensures RemoveFirst(Lower(h), '@') == Lower(RemoveFirst(h, '@'))
  {
    if h != [] {
      RemoveFirstLower(h[1..]);
      assert Lower(h)[1..] == Lower(h[1..]);
      assert Lower(h)[0] == LowerChar(h[0]);
      if h[0] != '@' {
        assert Lower([h[0]] + RemoveFirst(h[1..], '@')) == [LowerChar(h[0])] + Lower(RemoveFirst(h[1..], '@'));
      }
    }
  }

  /** Handles that differ only in letter case share one cache key. */
  lemma NormalizeCaseInsensitive(a: string, b: string)
    requires Lower(a) == Lower(b)
    ensures Normalize(a) == Normalize(b)
  {
    RemoveFirstLower(a);
    RemoveFirstLower(b);
    LowerIdempotent(RemoveFirst(a, '@'));
    LowerIdempotent(RemoveFirst(b, '@'));
  }

  // ---------------------------------------------------------- Resolution

  /** What one resolution of a handle returns, the cache it leaves and the
      requests it makes. */
  datatype Resolution = Resolution(userId: Option<string>, cache: map<string, CacheEntry>, events: seq<Event>)

  /** `getUserIdFromUsername`: a cache hit returns the cached id; on a miss the
      user-info endpoint is asked, and only a reply with a truthy id is
      written to the cache (with the reply's name, else the key) and
      returned. A thrown request and a reply without id give null. */
  function Resolve(cache: map<string, CacheEntry>, svc: Services, handle: string, now: int): Resolution {
    var key := Normalize(handle);
    if key in cache then Resolution(Some(cache[key].userId), cache, [CacheRead(key)])
    else
      match svc.userInfo(key)
      case UserInfoThrew(_) => Resolution(None, cache, [CacheRead(key), UserInfoRequested(key)])
      case UserInfo(id, name) =>
        if Truthy(id) then
          var displayName := OrElse(name, key);
          Resolution(id, Upsert(cache, key, id.value, displayName, now),
                     [CacheRead(key), UserInfoRequested(key), CacheUpserted(key, id.value, displayName)])
        else Resolution(None, cache, [CacheRead(key), UserInfoRequested(key)])
  }

  /** Every request a resolution makes uses the normalised key, and the
      cache is read first. */
  lemma ResolveUsesKey(cache: map<string, CacheEntry>, svc: Services, handle: string, now: int)
    ensures var r := Resolve(cache, svc, handle, now); var key := Normalize(handle);
      |r.events| >= 1 && r.events[0] == CacheRead(key) &&
      forall e :: e in r.events ==>
        e == CacheRead(key) || e == UserInfoRequested(key) || (e.CacheUpserted? && e.key == key)
  {
  }

  /** A hit returns the cached id, calls no endpoint and writes nothing. */
  lemma ResolveHit(cache: map<string, CacheEntry>, svc: Services, handle: string, now: int)
    requires Normalize(handle) in cache
    ensures var r := Resolve(cache, svc, handle, now);
      r.userId == Some(cache[Normalize(handle)].userId) && r.cache == cache &&
      r.events == [CacheRead(Normalize(handle))]
  {
  }

  /** The cache changes only on a miss whose reply carried a truthy id; it
      then holds that id under the key, with the reply's name or else the
      key as display name, and the id is returned. Otherwise the cache is
      unchanged, and a miss ends in null. */
  lemma ResolveWrites(cache: map<string, CacheEntry>, svc: Services, handle: string, now: int)
    ensures var r := Resolve(cache, svc, handle, now); var key := Normalize(handle);
      var reply := svc.userInfo(key);
      if key !in cache && reply.UserInfo? && Truthy(reply.id) then
        r.userId == reply.id && key in r.cache &&
        r.cache[key].userId == reply.id.value && r.cache[key].displayName == OrElse(reply.name, key) &&
        r.cache[key].cachedAt == now &&
        forall k :: k != key ==> (k in r.cache <==> k in cache) && (k in cache ==> r.cache[k] == cache[k])
      else
        r.cache == cache && (key !in cache ==> r.userId == None) &&
        forall e :: e in r.events ==> !e.CacheUpserted?
  {
  }

  /** After a resolution that produced an id, resolving the same handle
      again (whatever the endpoint would now say) is a hit with that id. */
  lemma ResolveThenHit(cache: map<string, CacheEntry>, svc: Services, svc2: Services, handle: string, now: int, later: int)
    requires Resolve(cache, svc, handle, now).userId.Some?
    ensures var r := Resolve(cache, svc, handle, now);
      Resolve(r.cache, svc2, handle, later) == Resolution(r.userId, r.cache, [CacheRead(Normalize(handle))])
  {
  }

  /** The same handle in other letter case resolves through the same entry. */
  lemma ResolveCaseInsensitive(cache: map<string, CacheEntry>, svc: Services, a: string, b: string, now: int)
    requires Lower(a) == Lower(b)
    ensures Resolve(cache, svc, a, now) == Resolve(cache, svc, b, now)
  {
    NormalizeCaseInsensitive(a, b);
  }

  /** `getUserIdFromUsername` against the database. */
  method GetUserIdFromUsername(b: Backend, svc: Services, handle: string, now: int) returns (userId: Option<string>)
    modifies b`cache, b`journal
    ensures var r := Resolve(old(b.cache), svc, handle, now);
      userId == r.userId && b.cache == r.cache && b.journal == old(b.journal) + r.events
  {
    var key := Normalize(handle);
    var cached := b.FindCacheEntry(key);
    if cached.Some? {
      return Some(cached.value.userId);
    }
    b.Record([UserInfoRequested(key)]);
    match svc.userInfo(key) {
      case UserInfoThrew(_) =>
        userId := None;
      case UserInfo(id, name) =>
        if Truthy(id) {
          var displayName := OrElse(name, key);
          b.UpsertCache(key, id.value, displayName, now);
          userId := id;
        } else {
          userId := None;
        }
    }
  }

  // --------------------------------------------------------------- Fetch

  /** The tweets `fetchTweetsByUserId` returns for an endpoint reply: a thrown
      request or an envelope whose status is not "success" gives [], as does
      a success envelope without tweets. */
  function TweetsFromReply(reply: TweetsReply): (r: seq<Tweet>)
    ensures r != [] ==> reply == TweetsEnvelope(Some("success"), Some(r))
    ensures reply.TweetsEnvelope? && reply.status == Some("success") && reply.tweets.Some? ==> r == reply.tweets.value
  {
    match reply
    case TweetsThrew(_) => []
    case TweetsEnvelope(status, tweets) => if status == Some("success") then tweets.GetOr([]) else []
  }

  /** `fetchTweetsByUserId` against the endpoint. */
  method FetchTweetsByUserId(b: Backend, svc: Services, userId: string) returns (tweets: seq<Tweet>)
    modifies b`journal
    ensures tweets == TweetsFromReply(svc.lastTweets(userId))
    ensures b.journal == old(b.journal) + [TweetsRequested(userId)]
  {
    b.Record([TweetsRequested(userId)]);
    var reply := svc.lastTweets(userId);
    match reply {
      case TweetsThrew(_) =>
        tweets := [];
      case TweetsEnvelope(status, ts) =>
        if status != Some("success") {
          tweets := [];
        } else {
          tweets := ts.GetOr([]);
        }
    }
  }

  /** The tweets of one handle, the cache afterwards and the requests made. */
  datatype Fetch = Fetch(tweets: seq<Tweet>, cache: map<string, CacheEntry>, events: seq<Event>)

  /** `fetchTweetsByUsername`: resolve, and ask for tweets only with a truthy id. */
  function FetchByUsername(cache: map<string, CacheEntry>, svc: Services, handle: string, now: int): Fetch {
    var res := Resolve(cache, svc, handle, now);
    if !Truthy(res.userId) then Fetch([], res.cache, res.events)
    else
      var id := res.userId.value;
      Fetch(TweetsFromReply(svc.lastTweets(id)), res.cache, res.events + [TweetsRequested(id)])
  }

  /** Without an id the tweet endpoint is not called and the result is [];
      with one, it is called once, after the resolution, with that id. */
  lemma FetchByUsernameRequests(cache: map<string, CacheEntry>, svc: Services, handle: string, now: int)
    ensures var res := Resolve(cache, svc, handle, now); var f := FetchByUsername(cache, svc, handle, now);
      f.cache == res.cache &&
      if Truthy(res.userId) then
        f.events == res.events + [TweetsRequested(res.userId.value)] &&
        f.tweets == TweetsFromReply(svc.lastTweets(res.userId.value))
      else
        f.tweets == [] && f.events == res.events && forall e :: e in f.events ==> !e.TweetsRequested?
  {
  }

  /** A handle's requests start with its one cache lookup, under the
      normalised key; what follows is at most a user-info request, a cache
      write and a tweet request. */
  lemma FetchByUsernameEvents(cache: map<string, CacheEntry>, svc: Services, handle: string, now: int)
    ensures var f := FetchByUsername(cache, svc, handle, now);
      |f.events| >= 1 && f.events[0] == CacheRead(Normalize(handle)) &&
      forall i :: 1 <= i < |f.events| ==>
        f.events[i].UserInfoRequested? || f.events[i].CacheUpserted? || f.events[i].TweetsRequested?
  {
  }

  /** `fetchTweetsByUsername` against the database and the endpoints. */
  method FetchTweetsByUsername(b: Backend, svc: Services, handle: string, now: int) returns (tweets: seq<Tweet>)
    modifies b`cache, b`journal
    ensures var f := FetchByUsername(old(b.cache), svc, handle, now);
      tweets == f.tweets && b.cache == f.cache && b.journal == old(b.journal) + f.events
  {
    var userId := GetUserIdFromUsername(b, svc, handle, now);
    if !Truthy(userId) {
      return [];
    }
    tweets := FetchTweetsByUserId(b, svc, userId.value);
  }

  // ------------------------------------------------------------- Filter

  const MsPerHour: int := 60 * 60 * 1000

  /** `now - hoursBack` hours, in milliseconds. */
  function Cutoff(nowMs: int, hoursBack: int): int {
    nowMs - hoursBack * MsPerHour
  }

  /** A tweet passes the filter: its date parsed and is not before the
      cutoff, and it is not a retweet. */
  predicate Keep(t: Tweet, cutoff: int) {
    t.createdAt.Some? && t.createdAt.value >= cutoff && !t.retweeted
  }

  /** `filterRecentTweets`: the tweets kept, in their order, and each kept
      tweet as often as it occurred. */
  function FilterRecent(tweets: seq<Tweet>, nowMs: int, hoursBack: int): (r: seq<Tweet>)
    ensures Subseq(r, tweets)
    ensures forall t :: t in r <==> t in tweets && Keep(t, Cutoff(nowMs, hoursBack))
    ensures forall t :: multiset(r)[t] == if Keep(t, Cutoff(nowMs, hoursBack)) then multiset(tweets)[t] else 0
  {
    if |tweets| == 0 then []
    else
      var rest := FilterRecent(tweets[1..], nowMs, hoursBack);
      assert tweets == [tweets[0]] + tweets[1..];
      if Keep(tweets[0], Cutoff(nowMs, hoursBack)) then [tweets[0]] + rest else rest
  }

  /** The bound is inclusive; a retweet and a tweet whose date did not parse
      are dropped whatever their time. */
  lemma FilterBoundaries(t: Tweet, nowMs: int, hoursBack: int)
    ensures t.createdAt == Some(Cutoff(nowMs, hoursBack)) && !t.retweeted ==> FilterRecent([t], nowMs, hoursBack) == [t]
    ensures t.createdAt == Some(Cutoff(nowMs, hoursBack) - 1) ==> FilterRecent([t], nowMs, hoursBack) == []
    ensures t.retweeted ==> FilterRecent([t], nowMs, hoursBack) == []
    ensures t.createdAt.None? ==> FilterRecent([t], nowMs, hoursBack) == []
  {
    assert [t][1..] == [];
  }
}
