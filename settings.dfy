/** The settings endpoint (`PUT /api/digest`): the signed-in user's digest is
    overwritten with the submitted fields, and the cache rows of the handles
    that left the list are deleted first. */
module SettingsRoute {
  import opened Wrappers
  import opened Json
  import opened Records
  import opened Store
  import opened Text
  import opened Seqs
  import TwitterService

  /** `handles.map((u) => u.toLowerCase())`. */
  function LowerAll(handles: seq<string>): (r: seq<string>)
    ensures |r| == |handles| && forall i :: 0 <= i < |r| ==> r[i] == Lower(handles[i])
  {
    seq(|handles|, i requires 0 <= i < |handles| => Lower(handles[i]))
  }

  /** The cleanup keys: the old handles, lowercased, that the lowercased new
      list does not hold, in the old order (duplicates kept). */
  function RemovedHandles(oldHandles: seq<string>, newHandles: seq<string>): seq<string> {
    if |oldHandles| == 0 then []
    else
      var h := Lower(oldHandles[0]);
      (if h in LowerAll(newHandles) then [] else [h]) + RemovedHandles(oldHandles[1..], newHandles)
  }

  /** What a save answers, asks of the database, and leaves in the digest
      and cache tables. */
  datatype Saved = Saved(response: Response, events: seq<Event>, digests: seq<Digest>, cache: map<string, CacheEntry>)

  function ServerError(events: seq<Event>, digests: seq<Digest>, cache: map<string, CacheEntry>): Saved {
    Saved(Response(500, ErrorBody("Internal server error")), events, digests, cache)
  }

  /** The handler on a session (None when signed out), the parsed request
      body (a Failure when `req.json()` throws) and the tables. A body
      without `twitterUsernames` throws a TypeError at the `map`, which the
      catch turns into a 500. */
  function Put(session: Option<SessionUser>, body: Result<DigestBody, Error>,
               digests: seq<Digest>, cache: map<string, CacheEntry>): Saved
  {
    if session.None? then Saved(Response(401, ErrorBody("Unauthorized")), [], digests, cache)
    else if body.Failure? then ServerError([], digests, cache)
    else
      var read := [UserDigestRead(session.value.id)];
      var found := DigestOfUser(digests, session.value.id);
      if found.None? then Saved(Response(404, ErrorBody("Digest not found")), read, digests, cache)
      else if body.value.twitterUsernames.None? then ServerError(read, digests, cache)
      else
        var d := found.value;
        var removed := RemovedHandles(d.twitterUsernames, body.value.twitterUsernames.value);
        var deleted := if |removed| > 0 then [CacheDeleted(removed)] else [];
        Saved(Response(200, SuccessBody),
              read + deleted + [DigestUpdated(d.id, body.value)],
              UpdateDigests(digests, d.id, body.value),
              cache - set k | k in removed)
  }

  /** The handler against the database. */
  method PutDigest(b: Backend, session: Option<SessionUser>, body: Result<DigestBody, Error>) returns (response: Response)
    modifies b`digests, b`cache, b`journal
    ensures var s := Put(session, body, old(b.digests), old(b.cache));
      response == s.response && b.digests == s.digests && b.cache == s.cache &&
      b.journal == old(b.journal) + s.events
  {
    if session.None? {
      return Response(401, ErrorBody("Unauthorized"));
    }
    if body.Failure? {
      return Response(500, ErrorBody("Internal server error"));
    }
    var data := body.value;
    var found := b.FindUserDigest(session.value.id);
    if found.None? {
      return Response(404, ErrorBody("Digest not found"));
    }
    if data.twitterUsernames.None? {
      return Response(500, ErrorBody("Internal server error"));
    }
    var d := found.value;
    var removed := RemovedHandles(d.twitterUsernames, data.twitterUsernames.value);
    ghost var read := [UserDigestRead(session.value.id)];
    if |removed| > 0 {
      b.DeleteCacheKeys(removed);
    } else {
      assert (set k | k in removed) == {};
      assert b.cache == old(b.cache) - set k | k in removed;
    }
    ghost var deleted := if |removed| > 0 then [CacheDeleted(removed)] else [];
    assert b.journal == old(b.journal) + read + deleted;
    b.UpdateDigest(d.id, data);
    AppendAssoc(old(b.journal), read + deleted, [DigestUpdated(d.id, data)]);
    AppendAssoc(old(b.journal), read, deleted);
    return Response(200, SuccessBody);
  }

  // ------------------------------------------------------------ Properties

  /** A cleanup key is exactly a lowercased old handle that no new handle
      lowercases to. */
  lemma {:induction false} RemovedMembers(oldHandles: seq<string>, newHandles: seq<string>)
    ensures forall h :: h in RemovedHandles(oldHandles, newHandles) <==>
      h in LowerAll(oldHandles) && h !in LowerAll(newHandles)
  {
    if |oldHandles| > 0 {
      RemovedMembers(oldHandles[1..], newHandles);
      assert LowerAll(oldHandles) == [Lower(oldHandles[0])] + LowerAll(oldHandles[1..]);
    }
  }

  /** The cleanup keys keep the order of the old list. */
  lemma {:induction false} RemovedInOrder(oldHandles: seq<string>, newHandles: seq<string>)
    ensures Subseq(RemovedHandles(oldHandles, newHandles), LowerAll(oldHandles))
  {
    if |oldHandles| > 0 {
      var rest := RemovedHandles(oldHandles[1..], newHandles);
      var r := RemovedHandles(oldHandles, newHandles);
      var lowered := LowerAll(oldHandles);
      RemovedInOrder(oldHandles[1..], newHandles);
      assert lowered[1..] == LowerAll(oldHandles[1..]);
      if Lower(oldHandles[0]) in LowerAll(newHandles) {
        assert r == rest;
        SubseqSkip(rest, lowered);
      } else {
        assert r[0] == lowered[0] && r[1..] == rest;
      }
    }
  }

  /** Dropping the head of the longer sequence keeps a sub-sequence one. */
  lemma SubseqSkip<T>(a: seq<T>, b: seq<T>)
    requires |b| > 0 && Subseq(a, b[1..])
    ensures Subseq(a, b)
  {
  }

  /** A handle kept in the new list, in any case, is never a cleanup key. */
  lemma SharedHandleKept(oldHandles: seq<string>, newHandles: seq<string>, h: string, h': string)
    requires h in oldHandles && h' in newHandles && Lower(h) == Lower(h')
    ensures Lower(h) !in RemovedHandles(oldHandles, newHandles)
  {
    RemovedMembers(oldHandles, newHandles);
    var j :| 0 <= j < |newHandles| && newHandles[j] == h';
    assert LowerAll(newHandles)[j] == Lower(h);
  }

  /** Signed out, an unreadable body, or no digest: nothing is written. */
  lemma PutRejected(session: Option<SessionUser>, body: Result<DigestBody, Error>,
                    digests: seq<Digest>, cache: map<string, CacheEntry>)
    ensures session.None? ==>
      Put(session, body, digests, cache) == Saved(Response(401, ErrorBody("Unauthorized")), [], digests, cache)
    ensures session.Some? && body.Success? && DigestOfUser(digests, session.value.id).None? ==>
      Put(session, body, digests, cache) ==
      Saved(Response(404, ErrorBody("Digest not found")), [UserDigestRead(session.value.id)], digests, cache)
    ensures var s := Put(session, body, digests, cache);
      s.response.status != 200 ==>
        (s.digests == digests && s.cache == cache && forall e :: e in s.events ==> e.UserDigestRead?)
  {
  }

  /** A successful save deletes the cleanup keys (asking for it only when
      there is one), writes the body into the user's digest and nothing else. */
  lemma PutSaved(session: Option<SessionUser>, body: Result<DigestBody, Error>,
                 digests: seq<Digest>, cache: map<string, CacheEntry>)
    ensures var s := Put(session, body, digests, cache);
      s.response.status == 200 <==>
        session.Some? && body.Success? && DigestOfUser(digests, session.value.id).Some? &&
        body.value.twitterUsernames.Some?
    ensures var s := Put(session, body, digests, cache);
      s.response.status == 200 ==>
        var d := DigestOfUser(digests, session.value.id).value;
        var removed := RemovedHandles(d.twitterUsernames, body.value.twitterUsernames.value);
        (forall k :: k in s.cache <==> k in cache && k !in removed) &&
        (forall k :: k in s.cache ==> s.cache[k] == cache[k]) &&
        (CacheDeleted(removed) in s.events <==> |removed| > 0) &&
        (forall e :: e in s.events && e.CacheDeleted? ==> e.keys == removed) &&
        s.digests == UpdateDigests(digests, d.id, body.value)
  {
    var s := Put(session, body, digests, cache);
    if s.response.status == 200 {
      var d := DigestOfUser(digests, session.value.id).value;
      var removed := RemovedHandles(d.twitterUsernames, body.value.twitterUsernames.value);
      var deleted := if |removed| > 0 then [CacheDeleted(removed)] else [];
      assert s.events == [UserDigestRead(session.value.id)] + deleted + [DigestUpdated(d.id, body.value)];
    }
  }

  /** The update writes the six form fields that are present and keeps the
      row's id, owner and time zone. */
  lemma UpdateWritesFormFields(d: Digest, body: DigestBody)
    ensures var u := UpdateFields(d, body);
      u.id == d.id && u.userId == d.userId && u.scheduleTimezone == d.scheduleTimezone &&
      (body.name.Some? ==> u.name == body.name.value) && (body.name.None? ==> u.name == d.name) &&
      (body.twitterUsernames.Some? ==> u.twitterUsernames == body.twitterUsernames.value) &&
      (body.twitterUsernames.None? ==> u.twitterUsernames == d.twitterUsernames) &&
      (body.scheduleHour.Some? ==> u.scheduleHour == body.scheduleHour.value) &&
      (body.scheduleHour.None? ==> u.scheduleHour == d.scheduleHour) &&
      (body.timeWindowHours.Some? ==> u.timeWindowHours == body.timeWindowHours.value) &&
      (body.timeWindowHours.None? ==> u.timeWindowHours == d.timeWindowHours) &&
      (body.recipientEmail.Some? ==> u.recipientEmail == body.recipientEmail.value) &&
      (body.recipientEmail.None? ==> u.recipientEmail == d.recipientEmail) &&
      (body.isActive.Some? ==> u.isActive == body.isActive.value) &&
      (body.isActive.None? ==> u.isActive == d.isActive)
  {
  }

  /** The cleanup key of a removed "@Foo" is "@foo", while the resolver
      caches that handle under "foo": that row survives the cleanup. */
  lemma AtHandleKeyMissed()
    ensures RemovedHandles(["@Foo"], []) == ["@foo"]
    ensures TwitterService.Normalize("@Foo") == "foo"
    ensures "foo" !in RemovedHandles(["@Foo"], [])
  {
    assert Lower("@Foo") == "@foo";
    assert RemoveFirst("@Foo", '@') == "Foo";
    assert Lower("Foo") == "foo";
  }
}
