/** The scheduled sweep (`GET /api/cron/digest`): with the right bearer
    secret, every active digest scheduled for the current hour is started
    in the background when its owner's first Google account has an access
    token, and reported as failed otherwise. */
module CronRoute {
  import opened Wrappers
  import opened Records
  import opened Store
  import opened Seqs

  /** The header check: the value must be exactly "Bearer " followed by the
      secret, which a template literal renders as "undefined" when unset. */
  predicate Authorized(header: Option<string>, secret: Option<string>) {
    header == Some("Bearer " + secret.GetOr("undefined"))
  }

  /** `googleAccount?.access_token` is truthy. */
  predicate HasToken(a: Option<Account>) {
    a.Some? && Truthy(a.value.accessToken)
  }

  /** The account the sweep uses for a digest: its owner's first Google one. */
  function AccountOf(d: Digest, accounts: seq<Account>): Option<Account> {
    GoogleAccount(accounts, d.userId)
  }

  /** The result entry of one digest. */
  function EntryOf(d: Digest, accounts: seq<Account>): CronEntry {
    if HasToken(AccountOf(d, accounts)) then CronEntry(d.id, "processing", None)
    else CronEntry(d.id, "failed", Some("No Google access token"))
  }

  /** The background start of one digest's run, with its account's tokens. */
  function Dispatch(d: Digest, accounts: seq<Account>): Event
    requires HasToken(AccountOf(d, accounts))
  {
    var a := AccountOf(d, accounts).value;
    Dispatched(d.id, a.accessToken.value, a.refreshToken)
  }

  /** The requests one iteration of the loop makes. */
  function DispatchOf(d: Digest, accounts: seq<Account>): seq<Event> {
    if HasToken(AccountOf(d, accounts)) then [Dispatch(d, accounts)] else []
  }

  /** `results` after the loop has seen `ds`. */
  function Entries(ds: seq<Digest>, accounts: seq<Account>): seq<CronEntry> {
    if |ds| == 0 then [] else Entries(ds[..|ds| - 1], accounts) + [EntryOf(ds[|ds| - 1], accounts)]
  }

  /** The dispatches the loop makes over `ds`, in order. */
  function Dispatches(ds: seq<Digest>, accounts: seq<Account>): seq<Event> {
    if |ds| == 0 then [] else Dispatches(ds[..|ds| - 1], accounts) + DispatchOf(ds[|ds| - 1], accounts)
  }

  /** The answer of a sweep and the requests it made. */
  datatype Sweep = Sweep(response: Response, events: seq<Event>)

  /** The sweep on the request's authorization header, the configured secret,
      the current hour and the tables. */
  function Cron(header: Option<string>, secret: Option<string>, hour: int,
                digests: seq<Digest>, accounts: seq<Account>): Sweep
  {
    if !Authorized(header, secret) then Sweep(Response(401, ErrorBody("Unauthorized")), [])
    else
      var ds := DueDigests(digests, hour);
      Sweep(Response(200, CronBody(|ds|, Entries(ds, accounts))),
            [DueDigestsRead(hour)] + Dispatches(ds, accounts))
  }

  /** The handler against the database; the clock gives the current hour. */
  method CronSweep(b: Backend, header: Option<string>, secret: Option<string>, clock: Clock) returns (response: Response)
    modifies b`journal
    ensures var s := Cron(header, secret, clock.hour, old(b.digests), b.accounts);
      response == s.response && b.journal == old(b.journal) + s.events
  {
    if !Authorized(header, secret) {
      return Response(401, ErrorBody("Unauthorized"));
    }
    var digests := b.FindDueDigests(clock.hour);
    ghost var journal0 := b.journal;
    var results: seq<CronEntry> := [];
    for k := 0 to |digests|
      invariant results == Entries(digests[..k], b.accounts)
      invariant b.journal == journal0 + Dispatches(digests[..k], b.accounts)
    {
      var d := digests[k];
      assert digests[..k + 1][..k] == digests[..k];
      var account := GoogleAccount(b.accounts, d.userId);
      if !HasToken(account) {
        results := results + [CronEntry(d.id, "failed", Some("No Google access token"))];
        continue;
      }
      b.Record([Dispatched(d.id, account.value.accessToken.value, account.value.refreshToken)]);
      AppendAssoc(journal0, Dispatches(digests[..k], b.accounts), DispatchOf(d, b.accounts));
      results := results + [CronEntry(d.id, "processing", None)];
    }
    assert digests[..|digests|] == digests;
    AppendAssoc(old(b.journal), [DueDigestsRead(clock.hour)], Dispatches(digests, b.accounts));
    return Response(200, CronBody(|digests|, results));
  }

  // ------------------------------------------------------------ Properties

  /** One entry per digest, in order: "failed" with "No Google access token"
      exactly when the digest's account has no access token, else
      "processing" with no error. */
  lemma {:induction false} EntriesShape(ds: seq<Digest>, accounts: seq<Account>)
    ensures var r := Entries(ds, accounts);
      |r| == |ds| &&
      forall i :: 0 <= i < |ds| ==>
        r[i].digestId == ds[i].id &&
        (r[i].status == "failed" <==> !HasToken(AccountOf(ds[i], accounts))) &&
        (r[i].status == "failed" ==> r[i].error == Some("No Google access token")) &&
        (r[i].status != "failed" ==> r[i].status == "processing" && r[i].error.None?)
  {
    if |ds| > 0 {
      var prefix := ds[..|ds| - 1];
      EntriesShape(prefix, accounts);
      forall i | 0 <= i < |ds| - 1 ensures ds[i] == prefix[i] { }
    }
  }

  /** Every dispatch is of a digest of `ds` whose account has a token, with
      that account's tokens; each such digest has one. */
  lemma {:induction false} DispatchesMembers(ds: seq<Digest>, accounts: seq<Account>)
    ensures forall e :: e in Dispatches(ds, accounts) ==>
      exists j :: 0 <= j < |ds| && HasToken(AccountOf(ds[j], accounts)) && e == Dispatch(ds[j], accounts)
    ensures forall j :: 0 <= j < |ds| && HasToken(AccountOf(ds[j], accounts)) ==>
      Dispatch(ds[j], accounts) in Dispatches(ds, accounts)
  {
    if |ds| > 0 {
      var prefix := ds[..|ds| - 1];
      DispatchesMembers(prefix, accounts);
      forall j | 0 <= j < |ds| - 1 ensures ds[j] == prefix[j] { }
    }
  }

  /** With distinct digest ids, a dispatch naming a digest's id is that
      digest's own, and only a digest whose account has a token has one. */
  lemma DispatchOnlyOwn(ds: seq<Digest>, accounts: seq<Account>, i: nat)
    requires i < |ds|
    requires forall p, q :: 0 <= p < q < |ds| ==> ds[p].id != ds[q].id
    ensures forall e :: e in Dispatches(ds, accounts) && e.Dispatched? && e.digestId == ds[i].id ==>
      HasToken(AccountOf(ds[i], accounts)) && e == Dispatch(ds[i], accounts)
  {
    DispatchesMembers(ds, accounts);
    forall e | e in Dispatches(ds, accounts) && e.Dispatched? && e.digestId == ds[i].id
      ensures HasToken(AccountOf(ds[i], accounts)) && e == Dispatch(ds[i], accounts)
    {
      var j :| 0 <= j < |ds| && HasToken(AccountOf(ds[j], accounts)) && e == Dispatch(ds[j], accounts);
      assert ds[j].id == ds[i].id;
    }
  }

  /** With distinct digest ids, a digest whose account has a token is
      dispatched exactly once. */
  lemma {:induction false} DispatchOnce(ds: seq<Digest>, accounts: seq<Account>, i: nat)
    requires i < |ds|
    requires forall p, q :: 0 <= p < q < |ds| ==> ds[p].id != ds[q].id
    requires HasToken(AccountOf(ds[i], accounts))
    ensures Count(Dispatches(ds, accounts), Dispatch(ds[i], accounts)) == 1
  {
    var n := |ds|;
    var prefix := ds[..n - 1];
    var before := Dispatches(prefix, accounts);
    var last := DispatchOf(ds[n - 1], accounts);
    var x := Dispatch(ds[i], accounts);
    assert Dispatches(ds, accounts) == before + last;
    if i == n - 1 {
      DispatchesMembers(prefix, accounts);
      assert x !in before;
      CountAbsent(before, x);
      CountSnoc(before, last, x);
    } else {
      DispatchOnce(prefix, accounts, i);
      assert prefix[i] == ds[i];
      CountSnoc(before, last, x);
      assert last != [x];
    }
  }

  /** A wrong or missing header gets 401 and nothing is read or dispatched. */
  lemma CronUnauthorized(header: Option<string>, secret: Option<string>, hour: int,
                         digests: seq<Digest>, accounts: seq<Account>)
    requires !Authorized(header, secret)
    ensures Cron(header, secret, hour, digests, accounts) == Sweep(Response(401, ErrorBody("Unauthorized")), [])
  {
  }

  /** An authorized sweep reads the due digests once, then reports one
      entry per due digest (each active and scheduled for this hour), in
      order, and counts them all, the skipped ones included. */
  lemma CronReport(header: Option<string>, secret: Option<string>, hour: int,
                   digests: seq<Digest>, accounts: seq<Account>)
    requires Authorized(header, secret)
    ensures var s := Cron(header, secret, hour, digests, accounts);
      var ds := DueDigests(digests, hour);
      s.response.status == 200 && s.response.body.CronBody? &&
      s.events[0] == DueDigestsRead(hour) &&
      s.response.body.processedCount == |ds| == |s.response.body.results| &&
      forall i :: 0 <= i < |ds| ==>
        s.response.body.results[i].digestId == ds[i].id &&
        ds[i] in digests && ds[i].isActive && ds[i].scheduleHour == hour
  {
    var ds := DueDigests(digests, hour);
    EntriesShape(ds, accounts);
    assert forall i :: 0 <= i < |ds| ==> ds[i] in ds;
  }
}
