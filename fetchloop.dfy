/** The fetch loop of `processDigest`: the handles are visited in slices of
    ten, in list order, each fetched through the handle cache, with a pause
    of 100 ms after every request except, in the final slice, after a handle
    equal to that slice's last handle. */
module FetchLoop {
  import opened Seqs
  import opened Records
  import opened Store
  import opened TwitterService

  const BatchSize: nat := 10
  const DelayBetweenRequests: nat := 100

  // ------------------------------------------------------------ Batching

  /** The first position of the slice that position `j` falls in. */
  function BatchStart(j: nat): nat {
    10 * SliceOf(j)
  }

  /** The index of the slice that position `j` falls in: the one whose ten
      positions include `j`. */
  function SliceOf(j: nat): (s: nat)
    ensures 10 * s <= j < 10 * s + BatchSize
  {
    if j < BatchSize then 0 else 1 + SliceOf(j - BatchSize)
  }

  /** The source's delay rule for the handle at `j`: pause unless the handle
      equals, by value, the last handle of its slice and that slice is the
      final one. */
  predicate PauseAfter(h: seq<string>, j: nat)
    requires j < |h|
  {
    var start := BatchStart(j);
    h[j] != h[Min(start + BatchSize, |h|) - 1] || start + BatchSize < |h|
  }

  /** The slices `h[i..i + 10]` the outer loop visits. */
  function Batches(h: seq<string>): seq<seq<string>>
    decreases |h|
  {
    if |h| == 0 then []
    else if |h| <= BatchSize then [h]
    else [h[..BatchSize]] + Batches(h[BatchSize..])
  }

  /** The slices, put back together, are the handles in their order. */
  lemma {:induction false} BatchesFlatten(h: seq<string>)
    ensures Flatten(Batches(h)) == h
    decreases |h|
  {
    if 0 < |h| <= BatchSize {
      assert Flatten(Batches(h)) == h + Flatten([]);
    } else if |h| > BatchSize {
      BatchesFlatten(h[10..]);
      assert h[..10] + h[10..] == h;
    }
  }

  /** There are `ceil(n / 10)` slices. */
  lemma {:induction false} BatchesCount(h: seq<string>)
    ensures |Batches(h)| == (|h| + 9) / 10
    decreases |h|
  {
    if |h| > BatchSize {
      BatchesCount(h[10..]);
    }
  }

  /** Slice `k` exists when `10k < n`, and it is `h[10k .. min(10k + 10, n)]`. */
  lemma {:induction false} BatchesSlice(h: seq<string>, k: nat)
    requires 10 * k < |h|
    ensures k < |Batches(h)| && Batches(h)[k] == h[10 * k .. Min(10 * k + 10, |h|)]
    decreases k
  {
    BatchesCount(h);
    if k > 0 {
      var rest := h[10..];
      assert Batches(h)[k] == Batches(rest)[k - 1];
      BatchesSlice(rest, k - 1);
      assert rest[10 * (k - 1) .. Min(10 * (k - 1) + 10, |rest|)] == h[10 * k .. Min(10 * k + 10, |h|)];
    }
  }

  // ---------------------------------------------------------- Fetch loop

  /** What fetching one handle gives — its tweets, the cache it leaves and
      its requests — as a function of the cache before it. */
  type Step = (map<string, CacheEntry>, string) -> Fetch

  /** `fetchTweetsByUsername` as a step of the loop. */
  function FetchStep(svc: Services, now: int): Step {
    (cache, handle) => FetchByUsername(cache, svc, handle, now)
  }

  /** The per-handle tweet lists, the cache and the requests after the first `j` handles. */
  datatype FetchState = FetchState(results: seq<seq<Tweet>>, cache: map<string, CacheEntry>, events: seq<Event>)

  function PauseEvents(h: seq<string>, j: nat): seq<Event>
    requires j < |h|
  {
    if PauseAfter(h, j) then [Paused(DelayBetweenRequests)] else []
  }

  /** The fetch loop after the first `j` handles: each handle fetched with
      the cache the previous ones left, followed by its pause, if any. */
  function FetchPrefix(step: Step, cache: map<string, CacheEntry>, h: seq<string>, j: nat): FetchState
    requires j <= |h|
  {
    if j == 0 then FetchState([], cache, [])
    else
      var prev := FetchPrefix(step, cache, h, j - 1);
      var f := step(prev.cache, h[j - 1]);
      FetchState(prev.results + [f.tweets], f.cache, prev.events + f.events + PauseEvents(h, j - 1))
  }

  /** Position `k` of slice `s` belongs to that slice. */
  lemma {:induction false} BatchStartInSlice(i: nat, s: nat, k: nat)
    requires i == 10 * s && k < BatchSize
    ensures BatchStart(i + k) == i
  {
    if s > 0 {
      BatchStartInSlice(i - BatchSize, s - 1, k);
    }
  }

  /** Inside slice `s`, the source's test on the slice it holds — the
      handle differs from the slice's last one, or more slices follow — is
      the delay rule. */
  lemma PauseInSlice(h: seq<string>, i: nat, s: nat, j: nat, batch: seq<string>)
    requires i == 10 * s && i <= j < Min(i + BatchSize, |h|) && batch == h[i..Min(i + BatchSize, |h|)]
    ensures j - i < |batch|
    ensures PauseAfter(h, j) == (batch[j - i] != batch[|batch| - 1] || i + BatchSize < |h|)
  {
    BatchStartInSlice(i, s, j - i);
  }

  /** A fetch state seen from a backend whose journal held `journal0` before the loop. */
  function After(f: FetchState, journal0: seq<Event>): FetchState {
    FetchState(f.results, f.cache, journal0 + f.events)
  }

  /** One iteration of the inner loop over `batch`, the `slice`-th of
      `Batches(handles)`: fetch handle `j` with the cache the earlier handles
      left, push its tweets, then pause unless the handle equals the slice's
      last one and the slice is the final one. */
  method FetchOne(b: Backend, svc: Services, handles: seq<string>, i: nat, ghost slice: nat, batch: seq<string>, j: nat,
                  now: int, allTweets0: seq<seq<Tweet>>, ghost cache0: map<string, CacheEntry>, ghost journal0: seq<Event>)
    returns (allTweets: seq<seq<Tweet>>)
    requires i == 10 * slice && i <= j < Min(i + BatchSize, |handles|)
    requires slice < |Batches(handles)| && batch == Batches(handles)[slice]
    requires Fetched(b, FetchStep(svc, now), cache0, handles, j, allTweets0, journal0)
    modifies b`cache, b`journal
    ensures Fetched(b, FetchStep(svc, now), cache0, handles, j + 1, allTweets, journal0)
  {
    BatchesSlice(handles, slice);
    ghost var step := FetchStep(svc, now);
    ghost var prev := FetchPrefix(step, cache0, handles, j);
    assert allTweets0 == prev.results && b.cache == prev.cache && b.journal == journal0 + prev.events;
    ghost var f := FetchByUsername(prev.cache, svc, handles[j], now);
    ghost var pauses := PauseEvents(handles, j);
    ghost var next := FetchPrefix(step, cache0, handles, j + 1);
    assert next == FetchState(prev.results + [f.tweets], f.cache, prev.events + f.events + pauses);
    PauseInSlice(handles, i, slice, j, batch);
    var username := batch[j - i];
    var tweets := FetchTweetsByUsername(b, svc, username, now);
    allTweets := allTweets0 + [tweets];
    ghost var fetched := prev.events + f.events;
    AppendAssoc(journal0, prev.events, f.events);
    assert b.journal == journal0 + fetched;
    if username != batch[|batch| - 1] || i + BatchSize < |handles| {
      assert pauses == [Paused(DelayBetweenRequests)];
      b.Record([Paused(DelayBetweenRequests)]);
    } else {
      assert pauses == [];
      assert b.journal == b.journal + pauses;
    }
    assert b.journal == journal0 + fetched + pauses;
    AppendAssoc(journal0, fetched, pauses);
    assert FetchState(allTweets, b.cache, b.journal) == After(next, journal0);
  }

  /** The backend and the pushed lists agree with the fetch loop after the
      first `j` handles, on top of the requests made before the loop. */
  ghost predicate Fetched(b: Backend, step: Step, cache0: map<string, CacheEntry>, handles: seq<string>, j: nat,
                          allTweets: seq<seq<Tweet>>, journal0: seq<Event>)
    requires j <= |handles|
    reads b
  {
    FetchState(allTweets, b.cache, b.journal) == After(FetchPrefix(step, cache0, handles, j), journal0)
  }

  /** The nested batch loop of `processDigest`, pushing each handle's tweets. */
  method FetchAllTweets(b: Backend, svc: Services, handles: seq<string>, now: int) returns (allTweets: seq<seq<Tweet>>)
    modifies b`cache, b`journal
    ensures var f := FetchPrefix(FetchStep(svc, now), old(b.cache), handles, |handles|);
      allTweets == f.results && b.cache == f.cache && b.journal == old(b.journal) + f.events
  {
    ghost var cache0 := b.cache;
    ghost var journal0 := b.journal;
    var n := |handles|;
    allTweets := [];
    var i := 0;
    ghost var slice: nat := 0;
    assert journal0 + [] == journal0;
    while i < n
      invariant i == 10 * slice && i < n + BatchSize
      invariant Fetched(b, FetchStep(svc, now), cache0, handles, Min(i, n), allTweets, journal0)
    {
      allTweets := FetchBatch(b, svc, handles, i, now, allTweets, slice, cache0, journal0);
      i := i + BatchSize;
      slice := slice + 1;
    }
    assert Fetched(b, FetchStep(svc, now), cache0, handles, n, allTweets, journal0);
  }

  /** The inner loop over one slice `handles[i..i + 10]`: each handle is
      fetched, its tweets pushed, and a pause follows unless the handle
      equals the slice's last one and the slice is the final one. */
  method FetchBatch(b: Backend, svc: Services, handles: seq<string>, i: nat, now: int, allTweets0: seq<seq<Tweet>>,
                    ghost slice: nat, ghost cache0: map<string, CacheEntry>, ghost journal0: seq<Event>)
    returns (allTweets: seq<seq<Tweet>>)
    requires i == 10 * slice && i < |handles|
    requires Fetched(b, FetchStep(svc, now), cache0, handles, i, allTweets0, journal0)
    modifies b`cache, b`journal
    ensures Fetched(b, FetchStep(svc, now), cache0, handles, Min(i + BatchSize, |handles|), allTweets, journal0)
  {
    var end := Min(i + BatchSize, |handles|);
    var batch := handles[i..end];
    BatchesSlice(handles, slice);
    allTweets := allTweets0;
    for j := i to end
      invariant Fetched(b, FetchStep(svc, now), cache0, handles, j, allTweets, journal0)
    {
      allTweets := FetchOne(b, svc, handles, i, slice, batch, j, now, allTweets, cache0, journal0);
    }
  }

  /** There is one result list per handle, in handle order: the `i`-th is
      what fetching handle `i` gives with the cache the earlier handles left. */
  lemma {:induction false} FetchPrefixResult(step: Step, cache: map<string, CacheEntry>, h: seq<string>, j: nat, i: nat)
    requires i < j <= |h|
    ensures var f := FetchPrefix(step, cache, h, j);
      |f.results| == j && f.results[i] == step(FetchPrefix(step, cache, h, i).cache, h[i]).tweets
    decreases j
  {
    if i < j - 1 {
      FetchPrefixResult(step, cache, h, j - 1, i);
    } else {
      FetchPrefixLength(step, cache, h, j - 1);
    }
  }

  lemma {:induction false} FetchPrefixLength(step: Step, cache: map<string, CacheEntry>, h: seq<string>, j: nat)
    requires j <= |h|
    ensures |FetchPrefix(step, cache, h, j).results| == j
  {
    if j > 0 {
      FetchPrefixLength(step, cache, h, j - 1);
    }
  }

  // ------------------------------------------------------------ Requests

  /** Requests a handle makes after its cache lookup. */
  predicate IsAfterLookup(e: Event) {
    e.UserInfoRequested? || e.CacheUpserted? || e.TweetsRequested?
  }

  /** The requests of one handle: its cache lookup under `key`, then only
      requests that are neither lookups nor pauses. */
  predicate HandleEvents(es: seq<Event>, key: string) {
    |es| >= 1 && es[0] == CacheRead(key) && forall i :: 1 <= i < |es| ==> IsAfterLookup(es[i])
  }

  /** A step that looks each handle up once under its normalised key. */
  ghost predicate LooksUpOnce(step: Step) {
    forall cache, handle :: HandleEvents(step(cache, handle).events, Normalize(handle))
  }

  lemma FetchStepLooksUpOnce(svc: Services, now: int)
    ensures LooksUpOnce(FetchStep(svc, now))
  {
    forall cache, handle ensures HandleEvents(FetchStep(svc, now)(cache, handle).events, Normalize(handle)) {
      FetchByUsernameEvents(cache, svc, handle, now);
    }
  }

  /** Every request of the fetch loop is a cache access, a Twitter request or a pause. */
  predicate IsFetchEvent(e: Event) {
    e.CacheRead? || IsAfterLookup(e) || e.Paused?
  }

  lemma {:induction false} FetchPrefixEvents(step: Step, cache: map<string, CacheEntry>, h: seq<string>, j: nat)
    requires j <= |h| && LooksUpOnce(step)
    ensures forall e :: e in FetchPrefix(step, cache, h, j).events ==> IsFetchEvent(e)
  {
    if j > 0 {
      var prev := FetchPrefix(step, cache, h, j - 1);
      var f := step(prev.cache, h[j - 1]);
      FetchPrefixEvents(step, cache, h, j - 1);
      assert HandleEvents(f.events, Normalize(h[j - 1]));
      HandleEventsAreFetchEvents(f.events, Normalize(h[j - 1]));
    }
  }

  lemma HandleEventsAreFetchEvents(es: seq<Event>, key: string)
    requires HandleEvents(es, key)
    ensures forall e :: e in es ==> IsFetchEvent(e)
  {
    forall e | e in es ensures IsFetchEvent(e) {
      var i :| 0 <= i < |es| && es[i] == e;
    }
  }

  /** The keys of the cache lookups, in order. */
  function Lookups(events: seq<Event>): seq<string> {
    if |events| == 0 then []
    else (if events[0].CacheRead? then [events[0].key] else []) + Lookups(events[1..])
  }

  lemma {:induction false} LookupsAppend(a: seq<Event>, b: seq<Event>)
    ensures Lookups(a + b) == Lookups(a) + Lookups(b)
  {
    if |a| == 0 {
      assert a + b == b;
    } else {
      var head := if a[0].CacheRead? then [a[0].key] else [];
      LookupsAppend(a[1..], b);
      assert (a + b)[1..] == a[1..] + b;
      assert Lookups(a + b) == head + Lookups(a[1..] + b);
      AppendAssoc(head, Lookups(a[1..]), Lookups(b));
    }
  }

  /** Lookups of a handle's requests: its one key. */
  lemma {:induction false} LookupsAfter(es: seq<Event>)
    requires forall i :: 0 <= i < |es| ==> IsAfterLookup(es[i])
    ensures Lookups(es) == []
  {
    if |es| > 0 {
      LookupsAfter(es[1..]);
    }
  }

  function NormalizeAll(h: seq<string>): (r: seq<string>)
    ensures |r| == |h|
  {
    seq(|h|, i requires 0 <= i < |h| => Normalize(h[i]))
  }

  lemma NormalizeAllSnoc(h: seq<string>, j: nat)
    requires 0 < j <= |h|
    ensures NormalizeAll(h[..j]) == NormalizeAll(h[..j - 1]) + [Normalize(h[j - 1])]
  {
    assert NormalizeAll(h[..j])[..j - 1] == NormalizeAll(h[..j - 1]);
  }

  /** One handle's requests, then a possible pause, add exactly its key. */
  lemma LookupsOfStep(prev: seq<Event>, es: seq<Event>, key: string, pause: seq<Event>)
    requires HandleEvents(es, key) && (pause == [] || pause == [Paused(DelayBetweenRequests)])
    ensures Lookups(prev + es + pause) == Lookups(prev) + [key]
  {
    LookupsAfter(es[1..]);
    assert es == [es[0]] + es[1..];
    LookupsAppend([es[0]], es[1..]);
    assert Lookups(pause) == [];
    LookupsAppend(prev, es);
    LookupsAppend(prev + es, pause);
  }

  /** The handles are looked up strictly in list order, each once, under its normalised key. */
  lemma {:induction false} FetchPrefixLookups(step: Step, cache: map<string, CacheEntry>, h: seq<string>, j: nat)
    requires j <= |h| && LooksUpOnce(step)
    ensures Lookups(FetchPrefix(step, cache, h, j).events) == NormalizeAll(h[..j])
  {
    if j > 0 {
      var prev := FetchPrefix(step, cache, h, j - 1);
      var f := step(prev.cache, h[j - 1]);
      var key := Normalize(h[j - 1]);
      FetchPrefixLookups(step, cache, h, j - 1);
      assert HandleEvents(f.events, key);
      LookupsOfStep(prev.events, f.events, key, PauseEvents(h, j - 1));
      NormalizeAllSnoc(h, j);
    }
  }

  // -------------------------------------------------------------- Pauses

  /** The number of pauses the loop makes. */
  function PauseCount(events: seq<Event>): nat {
    if |events| == 0 then 0
    else (if events[0].Paused? then 1 else 0) + PauseCount(events[1..])
  }

  lemma {:induction false} PauseCountAppend(a: seq<Event>, b: seq<Event>)
    ensures PauseCount(a + b) == PauseCount(a) + PauseCount(b)
  {
    if |a| == 0 {
      assert a + b == b;
    } else {
      PauseCountAppend(a[1..], b);
      assert (a + b)[1..] == a[1..] + b;
    }
  }

  lemma {:induction false} PauseCountNone(es: seq<Event>)
    requires forall i :: 0 <= i < |es| ==> !es[i].Paused?
    ensures PauseCount(es) == 0
  {
    if |es| > 0 {
      PauseCountNone(es[1..]);
    }
  }

  /** The number of the first `j` positions the delay rule pauses after. */
  function Pausing(h: seq<string>, j: nat): nat
    requires j <= |h|
  {
    if j == 0 then 0 else Pausing(h, j - 1) + (if PauseAfter(h, j - 1) then 1 else 0)
  }

  /** The loop pauses once for every position the delay rule selects. */
  lemma {:induction false} FetchPrefixPauses(step: Step, cache: map<string, CacheEntry>, h: seq<string>, j: nat)
    requires j <= |h| && LooksUpOnce(step)
    ensures PauseCount(FetchPrefix(step, cache, h, j).events) == Pausing(h, j)
  {
    if j > 0 {
      var prev := FetchPrefix(step, cache, h, j - 1);
      var f := step(prev.cache, h[j - 1]);
      FetchPrefixPauses(step, cache, h, j - 1);
      assert HandleEvents(f.events, Normalize(h[j - 1]));
      PauseCountOfStep(prev.events, f.events, Normalize(h[j - 1]), PauseAfter(h, j - 1));
    }
  }

  /** One handle's requests add no pause; the pause after it adds one. */
  lemma PauseCountOfStep(prev: seq<Event>, es: seq<Event>, key: string, pause: bool)
    requires HandleEvents(es, key)
    ensures PauseCount(prev + es + (if pause then [Paused(DelayBetweenRequests)] else []))
         == PauseCount(prev) + (if pause then 1 else 0)
  {
    PauseCountNone(es);
    var p: seq<Event> := if pause then [Paused(DelayBetweenRequests)] else [];
    PauseCountAppend(prev, es);
    PauseCountAppend(prev + es, p);
    assert PauseCount(p) == if pause then 1 else 0;
  }

  /** A position before the final slice is followed by a pause. */
  lemma PauseBeforeLastSlice(h: seq<string>, j: nat)
    requires |h| >= 1 && j < BatchStart(|h| - 1)
    ensures PauseAfter(h, j)
  {
    assert SliceOf(j) < SliceOf(|h| - 1);
  }

  /** A position of the final slice shares its start, and is followed by a
      pause exactly when it differs from the last handle. */
  lemma PauseInLastSlice(h: seq<string>, j: nat)
    requires |h| >= 1 && BatchStart(|h| - 1) <= j < |h|
    ensures BatchStart(j) == BatchStart(|h| - 1)
    ensures PauseAfter(h, j) == (h[j] != h[|h| - 1])
  {
    BatchStartInSlice(BatchStart(|h| - 1), SliceOf(|h| - 1), j - BatchStart(|h| - 1));
  }

  lemma CountSliceSnoc(h: seq<string>, l: nat, j: nat, x: string)
    requires l < j <= |h|
    ensures Count(h[l..j], x) == Count(h[l..j - 1], x) + (if h[j - 1] == x then 1 else 0)
  {
    assert h[l..j][..j - l - 1] == h[l..j - 1];
  }

  /** Every handle before the final slice is followed by a pause. */
  lemma {:induction false} PausingBeforeLastSlice(h: seq<string>, j: nat)
    requires |h| >= 1 && j <= BatchStart(|h| - 1)
    ensures Pausing(h, j) == j
  {
    if j > 0 {
      PausingBeforeLastSlice(h, j - 1);
      PauseBeforeLastSlice(h, j - 1);
    }
  }

  /** Within the final slice, a handle is followed by a pause exactly when it
      differs from the last handle. */
  lemma {:induction false} PausingInLastSlice(h: seq<string>, j: nat)
    requires |h| >= 1 && BatchStart(|h| - 1) <= j <= |h|
    ensures Pausing(h, j) == j - Count(h[BatchStart(|h| - 1)..j], h[|h| - 1])
  {
    var l := BatchStart(|h| - 1);
    if j == l {
      PausingBeforeLastSlice(h, j);
    } else {
      PausingInLastSlice(h, j - 1);
      PauseInLastSlice(h, j - 1);
      CountSliceSnoc(h, l, j, h[|h| - 1]);
    }
  }

  /** The exact number of pauses: one per handle except those in the final
      slice that equal the last handle by value. */
  lemma PauseTotal(h: seq<string>)
    requires |h| >= 1
    ensures Pausing(h, |h|) == |h| - Count(h[BatchStart(|h| - 1)..], h[|h| - 1])
  {
    PausingInLastSlice(h, |h|);
    assert h[BatchStart(|h| - 1)..|h|] == h[BatchStart(|h| - 1)..];
  }

  /** With distinct handles, n handles give n - 1 pauses. */
  lemma PauseTotalDistinct(h: seq<string>)
    requires |h| >= 1 && Distinct(h)
    ensures Pausing(h, |h|) == |h| - 1
  {
    var l := BatchStart(|h| - 1);
    var s := h[l..];
    PauseTotal(h);
    assert s[..|s| - 1] == h[l..|h| - 1];
    assert h[|h| - 1] !in s[..|s| - 1];
    CountAbsent(s[..|s| - 1], h[|h| - 1]);
  }

  /** Twenty-five distinct handles are fetched in slices of 10, 10 and 5,
      with 24 pauses. */
  lemma TwentyFiveHandles(h: seq<string>)
    requires |h| == 25 && Distinct(h)
    ensures |Batches(h)| == 3
    ensures |Batches(h)[0]| == 10 && |Batches(h)[1]| == 10 && |Batches(h)[2]| == 5
    ensures Pausing(h, 25) == 24
  {
    BatchesCount(h);
    BatchesSlice(h, 0);
    BatchesSlice(h, 1);
    BatchesSlice(h, 2);
    PauseTotalDistinct(h);
  }

  /** A repeated last handle also skips its pause: of "a", "b", "a" only "b" is followed by one. */
  lemma RepeatedLastHandle()
    ensures Pausing(["a", "b", "a"], 3) == 1
  {
    var h := ["a", "b", "a"];
    assert !PauseAfter(h, 0) && PauseAfter(h, 1) && !PauseAfter(h, 2);
  }
}
