/** The database as the code sees it through Prisma — the digest, account,
    digest-log and handle-cache tables — together with the journal of every
    request the code makes to a collaborator (database, Twitter, OpenAI,
    Gmail, timers, dispatches), in order. */
module Store {
  import opened Wrappers
  import opened Records

  /** `digest.findUnique({where: {id}})`. */
  function DigestById(digests: seq<Digest>, id: string): (r: Option<Digest>)
    ensures r.Some? ==> r.value in digests && r.value.id == id
    ensures r.None? ==> forall d :: d in digests ==> d.id != id
  {
    if |digests| == 0 then None
    else if digests[0].id == id then Some(digests[0])
    else DigestById(digests[1..], id)
  }

  /** `digest.findFirst({where: {userId}})`: the first such row. */
  function DigestOfUser(digests: seq<Digest>, userId: string): (r: Option<Digest>)
    ensures r.Some? ==> r.value in digests && r.value.userId == userId
    ensures r.None? ==> forall d :: d in digests ==> d.userId != userId
  {
    if |digests| == 0 then None
    else if digests[0].userId == userId then Some(digests[0])
    else DigestOfUser(digests[1..], userId)
  }

  /** `digest.findMany({where: {isActive: true, scheduleHour: hour}})`, in table order. */
  function DueDigests(digests: seq<Digest>, hour: int): (r: seq<Digest>)
    ensures forall d :: d in r <==> d in digests && d.isActive && d.scheduleHour == hour
  {
    if |digests| == 0 then []
    else
      var rest := DueDigests(digests[1..], hour);
      if digests[0].isActive && digests[0].scheduleHour == hour then [digests[0]] + rest else rest
  }

  /** The user's accounts with provider "google", in table order. */
  function GoogleAccounts(accounts: seq<Account>, userId: string): (r: seq<Account>)
    ensures forall a :: a in r <==> a in accounts && a.userId == userId && a.provider == "google"
  {
    if |accounts| == 0 then []
    else
      var rest := GoogleAccounts(accounts[1..], userId);
      var a := accounts[0];
      if a.userId == userId && a.provider == "google" then [a] + rest else rest
  }

  /** `account.findFirst({where: {userId, provider: "google"}})`. */
  function GoogleAccount(accounts: seq<Account>, userId: string): Option<Account> {
    var found := GoogleAccounts(accounts, userId);
    if |found| == 0 then None else Some(found[0])
  }

  /** The logs of one digest, in table order. */
  function LogsOf(logs: seq<DigestLog>, digestId: string): (r: seq<DigestLog>)
    ensures forall l :: l in r <==> l in logs && l.digestId == digestId
  {
    if |logs| == 0 then []
    else
      var rest := LogsOf(logs[1..], digestId);
      if logs[0].digestId == digestId then [logs[0]] + rest else rest
  }

  /** The row `digestLog.create` writes at the start of a run. */
  function NewLog(digestId: string, now: int): DigestLog {
    DigestLog(digestId, Processing, 0, 0, None, None, now)
  }

  /** `digestLog.update`: the fields present in the patch are written, the others kept. */
  function ApplyPatch(log: DigestLog, p: LogPatch): DigestLog {
    log.(status := p.status,
         errorMessage := if p.errorMessage.Some? then p.errorMessage else log.errorMessage,
         totalScanned := p.totalScanned.GetOr(log.totalScanned),
         totalSelected := p.totalSelected.GetOr(log.totalSelected),
         digestContent := if p.digestContent.Some? then p.digestContent else log.digestContent)
  }

  /** `twitterUserCache.upsert`: a new row carries `now` as its cache time;
      an existing row gets the new id and name and keeps its cache time. */
  function Upsert(cache: map<string, CacheEntry>, key: string, userId: string, displayName: string, now: int): map<string, CacheEntry> {
    if key in cache then cache[key := cache[key].(userId := userId, displayName := displayName)]
    else cache[key := CacheEntry(userId, displayName, now)]
  }

  /** `digest.update` with the body's fields; an absent field is not written. */
  function UpdateFields(d: Digest, body: DigestBody): Digest {
    d.(name := body.name.GetOr(d.name),
       twitterUsernames := body.twitterUsernames.GetOr(d.twitterUsernames),
       scheduleHour := body.scheduleHour.GetOr(d.scheduleHour),
       timeWindowHours := body.timeWindowHours.GetOr(d.timeWindowHours),
       recipientEmail := body.recipientEmail.GetOr(d.recipientEmail),
       isActive := body.isActive.GetOr(d.isActive))
  }

  /** The digest table after `digest.update({where: {id}, data: body})`. */
  function UpdateDigests(digests: seq<Digest>, id: string, body: DigestBody): (r: seq<Digest>)
    ensures |r| == |digests|
    ensures forall i :: 0 <= i < |r| ==> r[i] == if digests[i].id == id then UpdateFields(digests[i], body) else digests[i]
  {
    seq(|digests|, i requires 0 <= i < |digests| =>
      if digests[i].id == id then UpdateFields(digests[i], body) else digests[i])
  }

  /** After an update each row keeps its id and owner, and a user's digest
      is found at the same row: with the body's fields when it is the row
      updated, unchanged otherwise. */
  lemma {:induction false} UpdateDigestsFound(digests: seq<Digest>, id: string, body: DigestBody, userId: string)
    ensures var r := UpdateDigests(digests, id, body);
      forall i :: 0 <= i < |r| ==> r[i].id == digests[i].id && r[i].userId == digests[i].userId
    ensures DigestOfUser(UpdateDigests(digests, id, body), userId) ==
      match DigestOfUser(digests, userId)
      case None => None
      case Some(d) => Some(if d.id == id then UpdateFields(d, body) else d)
  {
    if |digests| > 0 {
      assert UpdateDigests(digests, id, body)[1..] == UpdateDigests(digests[1..], id, body);
      UpdateDigestsFound(digests[1..], id, body, userId);
    }
  }

  class Backend {
    var digests: seq<Digest>
    var accounts: seq<Account>
    var logs: seq<DigestLog>
    var cache: map<string, CacheEntry>
    var journal: seq<Event>

    constructor (digests: seq<Digest>, accounts: seq<Account>, logs: seq<DigestLog>, cache: map<string, CacheEntry>)
      ensures this.digests == digests && this.accounts == accounts
      ensures this.logs == logs && this.cache == cache && journal == []
    {
      this.digests := digests;
      this.accounts := accounts;
      this.logs := logs;
      this.cache := cache;
      journal := [];
    }

    /** Requests to collaborators that are not the database, in order. */
    method Record(es: seq<Event>)
      modifies this`journal
      ensures journal == old(journal) + es
    {
      journal := journal + es;
    }

    method FindDigest(id: string) returns (d: Option<Digest>)
      modifies this`journal
      ensures d == DigestById(digests, id)
      ensures journal == old(journal) + [DigestRead(id)]
    {
      d := DigestById(digests, id);
      journal := journal + [DigestRead(id)];
    }

    method FindUserDigest(userId: string) returns (d: Option<Digest>)
      modifies this`journal
      ensures d == DigestOfUser(digests, userId)
      ensures journal == old(journal) + [UserDigestRead(userId)]
    {
      d := DigestOfUser(digests, userId);
      journal := journal + [UserDigestRead(userId)];
    }

    method FindDueDigests(hour: int) returns (ds: seq<Digest>)
      modifies this`journal
      ensures ds == DueDigests(digests, hour)
      ensures journal == old(journal) + [DueDigestsRead(hour)]
    {
      ds := DueDigests(digests, hour);
      journal := journal + [DueDigestsRead(hour)];
    }

    method FindGoogleAccount(userId: string) returns (a: Option<Account>)
      modifies this`journal
      ensures a == GoogleAccount(accounts, userId)
      ensures journal == old(journal) + [AccountRead(userId)]
    {
      a := GoogleAccount(accounts, userId);
      journal := journal + [AccountRead(userId)];
    }

    method FindCacheEntry(key: string) returns (e: Option<CacheEntry>)
      modifies this`journal
      ensures e == if key in cache then Some(cache[key]) else None
      ensures journal == old(journal) + [CacheRead(key)]
    {
      e := if key in cache then Some(cache[key]) else None;
      journal := journal + [CacheRead(key)];
    }

    method UpsertCache(key: string, userId: string, displayName: string, now: int)
      modifies this`cache, this`journal
      ensures cache == Upsert(old(cache), key, userId, displayName, now)
      ensures journal == old(journal) + [CacheUpserted(key, userId, displayName)]
    {
      cache := Upsert(cache, key, userId, displayName, now);
      journal := journal + [CacheUpserted(key, userId, displayName)];
    }

    /** `twitterUserCache.deleteMany({where: {username: {in: keys}}})`. */
    method DeleteCacheKeys(keys: seq<string>)
      modifies this`cache, this`journal
      ensures cache == old(cache) - set k | k in keys
      ensures journal == old(journal) + [CacheDeleted(keys)]
    {
      cache := cache - set k | k in keys;
      journal := journal + [CacheDeleted(keys)];
    }

    /** `digestLog.create`: the new row's id is its position in the table. */
    method CreateLog(digestId: string, now: int) returns (id: nat)
      modifies this`logs, this`journal
      ensures id == |old(logs)|
      ensures logs == old(logs) + [NewLog(digestId, now)]
      ensures journal == old(journal) + [LogCreated(id, NewLog(digestId, now))]
    {
      id := |logs|;
      logs := logs + [NewLog(digestId, now)];
      journal := journal + [LogCreated(id, NewLog(digestId, now))];
    }

    method UpdateLog(id: nat, patch: LogPatch)
      requires id < |logs|
      modifies this`logs, this`journal
      ensures logs == old(logs)[id := ApplyPatch(old(logs)[id], patch)]
      ensures journal == old(journal) + [LogUpdated(id, patch)]
    {
      logs := logs[id := ApplyPatch(logs[id], patch)];
      journal := journal + [LogUpdated(id, patch)];
    }

    method CreateDigest(d: Digest)
      modifies this`digests, this`journal
      ensures digests == old(digests) + [d]
      ensures journal == old(journal) + [DigestCreated(d)]
    {
      digests := digests + [d];
      journal := journal + [DigestCreated(d)];
    }

    method UpdateDigest(id: string, body: DigestBody)
      modifies this`digests, this`journal
      ensures digests == UpdateDigests(old(digests), id, body)
      ensures journal == old(journal) + [DigestUpdated(id, body)]
    {
      digests := UpdateDigests(digests, id, body);
      journal := journal + [DigestUpdated(id, body)];
    }
  }
}
