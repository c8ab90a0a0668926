/** The dashboard page: the signed-in user's digest with its ten newest run
    logs, created with default settings on the first visit. */
module DashboardPage {
  import opened Wrappers
  import opened Records
  import opened Store
  import opened Seqs

  /** What the page renders: a redirect, or the digest and its logs. */
  datatype Page = Redirect(to: string) | Show(digest: Digest, logs: seq<DigestLog>)

  /** The page together with the requests made and the digest table after. */
  datatype Loaded = Loaded(page: Page, events: seq<Event>, digests: seq<Digest>)

  /** How many logs the page shows. */
  const LogWindow: nat := 10

  /** Newest first: `executedAt` never increases along the list. */
  predicate NewestFirst(logs: seq<DigestLog>) {
    forall i, j :: 0 <= i < j < |logs| ==> logs[i].executedAt >= logs[j].executedAt
  }

  /** `l` placed before the first log of a newest-first list that is older. */
  function Insert(l: DigestLog, sorted: seq<DigestLog>): seq<DigestLog> {
    if |sorted| == 0 || l.executedAt >= sorted[0].executedAt then [l] + sorted
    else [sorted[0]] + Insert(l, sorted[1..])
  }

  /** `orderBy: {executedAt: "desc"}`. */
  function SortNewest(logs: seq<DigestLog>): seq<DigestLog> {
    if |logs| == 0 then [] else Insert(logs[0], SortNewest(logs[1..]))
  }

  /** The `include` of an existing digest: its logs, newest first, at most ten. */
  function RecentLogs(logs: seq<DigestLog>, digestId: string): seq<DigestLog> {
    var sorted := SortNewest(LogsOf(logs, digestId));
    sorted[..Min(LogWindow, |sorted|)]
  }

  /** The digest created on a first visit, under the id the database gives it. */
  function DefaultDigest(id: string, user: SessionUser): Digest {
    Digest(id, user.id, "My Daily Digest", [], 6, "Asia/Jakarta", 24, OrElse(user.email, ""), true)
  }

  /** The page on a session (None when signed out), the tables, and the id
      a create would be given. */
  function Dashboard(session: Option<SessionUser>, digests: seq<Digest>, logs: seq<DigestLog>, newId: string): Loaded {
    if session.None? then Loaded(Redirect("/"), [], digests)
    else
      var user := session.value;
      var found := DigestOfUser(digests, user.id);
      if found.Some? then
        Loaded(Show(found.value, RecentLogs(logs, found.value.id)), [UserDigestRead(user.id)], digests)
      else
        var created := DefaultDigest(newId, user);
        Loaded(Show(created, LogsOf(logs, newId)), [UserDigestRead(user.id), DigestCreated(created)], digests + [created])
  }

  /** The page against the database. */
  method LoadDashboard(b: Backend, session: Option<SessionUser>, newId: string) returns (page: Page)
    modifies b`digests, b`journal
    ensures var l := Dashboard(session, old(b.digests), b.logs, newId);
      page == l.page && b.digests == l.digests && b.journal == old(b.journal) + l.events
  {
    if session.None? {
      return Redirect("/");
    }
    var user := session.value;
    var found := b.FindUserDigest(user.id);
    if found.Some? {
      return Show(found.value, RecentLogs(b.logs, found.value.id));
    }
    var created := DefaultDigest(newId, user);
    b.CreateDigest(created);
    return Show(created, LogsOf(b.logs, newId));
  }

  // ------------------------------------------------------------ Properties

  /** Inserting keeps a list newest first and adds exactly `l`. */
  lemma {:induction false} InsertNewest(l: DigestLog, sorted: seq<DigestLog>)
    requires NewestFirst(sorted)
    ensures NewestFirst(Insert(l, sorted))
    ensures multiset(Insert(l, sorted)) == multiset(sorted) + multiset{l}
  {
    if |sorted| > 0 && l.executedAt < sorted[0].executedAt {
      var head := sorted[0];
      var rest := Insert(l, sorted[1..]);
      InsertNewest(l, sorted[1..]);
      assert sorted == [head] + sorted[1..];
      HeadNewest(head, l, sorted[1..], rest);
    }
  }

  /** A log no older than `l` and than every log of `tail` can lead a
      newest-first list made of `tail` and `l`. */
  lemma HeadNewest(head: DigestLog, l: DigestLog, tail: seq<DigestLog>, rest: seq<DigestLog>)
    requires head.executedAt > l.executedAt
    requires forall x :: x in tail ==> head.executedAt >= x.executedAt
    requires NewestFirst(rest) && multiset(rest) == multiset(tail) + multiset{l}
    ensures NewestFirst([head] + rest)
  {
    forall x | x in rest ensures head.executedAt >= x.executedAt {
      assert x in multiset(rest);
      assert x == l || x in multiset(tail);
    }
    var s := [head] + rest;
    forall i, j | 0 <= i < j < |s| ensures s[i].executedAt >= s[j].executedAt {
      assert s[j] == rest[j - 1];
      if i > 0 {
        assert s[i] == rest[i - 1];
      } else {
        assert rest[j - 1] in rest;
      }
    }
  }

  /** Sorting puts the logs newest first and neither adds nor loses one. */
  lemma {:induction false} SortNewestSorts(logs: seq<DigestLog>)
    ensures NewestFirst(SortNewest(logs))
    ensures multiset(SortNewest(logs)) == multiset(logs)
  {
    if |logs| > 0 {
      SortNewestSorts(logs[1..]);
      InsertNewest(logs[0], SortNewest(logs[1..]));
      assert logs == [logs[0]] + logs[1..];
    }
  }

  /** Cutting a newest-first list leaves a newest-first front no log of the
      back is newer than. */
  lemma CutNewest(s: seq<DigestLog>, k: nat)
    requires NewestFirst(s) && k <= |s|
    ensures NewestFirst(s[..k])
    ensures multiset(s) == multiset(s[..k]) + multiset(s[k..])
    ensures forall x, y :: x in s[..k] && y in s[k..] ==> x.executedAt >= y.executedAt
  {
    assert s == s[..k] + s[k..];
    forall x, y | x in s[..k] && y in s[k..] ensures x.executedAt >= y.executedAt {
      var i :| 0 <= i < k && s[..k][i] == x;
      var j :| 0 <= j < |s| - k && s[k..][j] == y;
      assert s[i] == x && s[k + j] == y;
    }
  }

  /** The page shows at most ten logs of the digest, newest first, and no
      log of the digest it leaves out is newer than one it shows. */
  lemma RecentLogsWindow(logs: seq<DigestLog>, digestId: string)
    ensures var r := RecentLogs(logs, digestId);
      |r| == Min(LogWindow, |LogsOf(logs, digestId)|) && NewestFirst(r) &&
      multiset(r) <= multiset(LogsOf(logs, digestId)) &&
      (forall x :: x in r ==> x in logs && x.digestId == digestId) &&
      forall y: DigestLog :: y in multiset(LogsOf(logs, digestId)) - multiset(r) ==>
        forall x :: x in r ==> x.executedAt >= y.executedAt
  {
    var own := LogsOf(logs, digestId);
    var sorted := SortNewest(own);
    SortNewestSorts(own);
    var k := Min(LogWindow, |sorted|);
    var r := sorted[..k];
    CutNewest(sorted, k);
    forall x | x in r ensures x in logs && x.digestId == digestId {
      assert x in multiset(own);
    }
    forall y: DigestLog | y in multiset(own) - multiset(r) ensures forall x :: x in r ==> x.executedAt >= y.executedAt {
      assert y in multiset(sorted[k..]);
    }
  }

  /** Signed out: a redirect to "/", nothing read or created. */
  lemma DashboardSignedOut(digests: seq<Digest>, logs: seq<DigestLog>, newId: string)
    ensures Dashboard(None, digests, logs, newId) == Loaded(Redirect("/"), [], digests)
  {
  }

  /** A user with a digest sees it, with no write. */
  lemma DashboardExisting(user: SessionUser, digests: seq<Digest>, logs: seq<DigestLog>, newId: string)
    requires DigestOfUser(digests, user.id).Some?
    ensures var l := Dashboard(Some(user), digests, logs, newId);
      l.digests == digests && l.page.Show? && l.page.digest == DigestOfUser(digests, user.id).value &&
      l.page.digest.userId == user.id && forall e :: e in l.events ==> !e.DigestCreated?
  {
  }

  /** A user without a digest gets exactly one, with the default settings;
      its logs are none when the new id is unused; and the next visit finds
      that digest instead of creating another. */
  lemma DashboardCreates(user: SessionUser, digests: seq<Digest>, logs: seq<DigestLog>, newId: string, nextId: string)
    requires DigestOfUser(digests, user.id).None?
    ensures var l := Dashboard(Some(user), digests, logs, newId);
      var d := l.page.digest;
      l.page.Show? && l.digests == digests + [d] &&
      l.events == [UserDigestRead(user.id), DigestCreated(d)] &&
      d.id == newId && d.userId == user.id && d.name == "My Daily Digest" && d.twitterUsernames == [] &&
      d.scheduleHour == 6 && d.scheduleTimezone == "Asia/Jakarta" && d.timeWindowHours == 24 &&
      d.recipientEmail == (if user.email.Some? then user.email.value else "") && d.isActive
    ensures (forall g :: g in logs ==> g.digestId != newId) ==>
      Dashboard(Some(user), digests, logs, newId).page.logs == []
    ensures var l := Dashboard(Some(user), digests, logs, newId);
      var again := Dashboard(Some(user), l.digests, logs, nextId);
      again.digests == l.digests && again.page.Show? && again.page.digest == l.page.digest
  {
    var created := DefaultDigest(newId, user);
    DigestOfUserAppend(digests, created);
    if forall g :: g in logs ==> g.digestId != newId {
      var own := LogsOf(logs, newId);
      if |own| > 0 {
        assert own[0] in own;
      }
    }
  }

  /** A row appended to a table without the user's digest is the one found. */
  lemma {:induction false} DigestOfUserAppend(digests: seq<Digest>, d: Digest)
    requires DigestOfUser(digests, d.userId).None?
    ensures DigestOfUser(digests + [d], d.userId) == Some(d)
  {
    if |digests| > 0 {
      assert (digests + [d])[1..] == digests[1..] + [d];
      DigestOfUserAppend(digests[1..], d);
    }
  }
}
