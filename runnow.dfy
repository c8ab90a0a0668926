/** The "Test Run Now" endpoint (`POST /api/digest/run`): a chain of guards,
    then one background start of the signed-in user's digest. */
module RunNowRoute {
  import opened Wrappers
  import opened Records
  import opened Store

  /** The answer of the endpoint and the requests it made. */
  datatype Started = Started(response: Response, events: seq<Event>)

  /** The handler on a session (None when signed out) and the tables. */
  function RunNow(session: Option<SessionUser>, digests: seq<Digest>, accounts: seq<Account>): Started {
    if session.None? then Started(Response(401, ErrorBody("Unauthorized")), [])
    else
      var userId := session.value.id;
      var found := DigestOfUser(digests, userId);
      var read := [UserDigestRead(userId)];
      if found.None? then Started(Response(404, ErrorBody("Digest not found")), read)
      else if |found.value.twitterUsernames| == 0 then
        Started(Response(400, ErrorBody("No Twitter usernames configured")), read)
      else
        var account := GoogleAccount(accounts, userId);
        var looked := [UserDigestRead(userId), AccountRead(userId)];
        if account.None? || !Truthy(account.value.accessToken) then
          Started(Response(400, ErrorBody("Google account not connected")), looked)
        else
          Started(Response(200, MessageBody("Digest is being processed")),
                  [UserDigestRead(userId), AccountRead(userId),
                   Dispatched(found.value.id, account.value.accessToken.value, account.value.refreshToken)])
  }

  /** The number of background runs started. */
  function DispatchCount(events: seq<Event>): nat {
    if |events| == 0 then 0 else (if events[0].Dispatched? then 1 else 0) + DispatchCount(events[1..])
  }

  // ------------------------------------------------------------ Properties

  /** The guards in their order: signed out, no digest, no handles, no
      Google token; each answers without starting a run, and the account is
      looked up only once the handle list is known to be non-empty. */
  lemma RunNowGuards(session: Option<SessionUser>, digests: seq<Digest>, accounts: seq<Account>)
    ensures session.None? ==> RunNow(session, digests, accounts) == Started(Response(401, ErrorBody("Unauthorized")), [])
    ensures session.Some? && DigestOfUser(digests, session.value.id).None? ==>
      RunNow(session, digests, accounts).response == Response(404, ErrorBody("Digest not found"))
    ensures session.Some? && DigestOfUser(digests, session.value.id).Some? &&
            |DigestOfUser(digests, session.value.id).value.twitterUsernames| == 0 ==>
      RunNow(session, digests, accounts) ==
      Started(Response(400, ErrorBody("No Twitter usernames configured")), [UserDigestRead(session.value.id)])
    ensures var s := RunNow(session, digests, accounts);
      session.Some? && DigestOfUser(digests, session.value.id).Some? &&
      |DigestOfUser(digests, session.value.id).value.twitterUsernames| > 0 &&
      !(GoogleAccount(accounts, session.value.id).Some? && Truthy(GoogleAccount(accounts, session.value.id).value.accessToken)) ==>
      s.response == Response(400, ErrorBody("Google account not connected")) && DispatchCount(s.events) == 0
  {
    var s := RunNow(session, digests, accounts);
    if session.Some? {
      var userId := session.value.id;
      assert DispatchCount([UserDigestRead(userId)]) == 0;
      assert [UserDigestRead(userId), AccountRead(userId)][1..] == [AccountRead(userId)];
      assert DispatchCount([AccountRead(userId)]) == 0;
      assert DispatchCount([UserDigestRead(userId), AccountRead(userId)]) == 0;
    }
  }

  /** A run is started exactly once when every guard passes, with the
      digest's id and the account's tokens, and the answer is a 200 that
      does not wait for it; otherwise none is started. */
  lemma RunNowDispatch(session: Option<SessionUser>, digests: seq<Digest>, accounts: seq<Account>)
    ensures var s := RunNow(session, digests, accounts);
      DispatchCount(s.events) == (if s.response.status == 200 then 1 else 0)
    ensures var s := RunNow(session, digests, accounts);
      s.response.status == 200 ==>
        var d := DigestOfUser(digests, session.value.id).value;
        var a := GoogleAccount(accounts, session.value.id).value;
        |d.twitterUsernames| > 0 && Truthy(a.accessToken) &&
        s.response.body == MessageBody("Digest is being processed") &&
        s.events[|s.events| - 1] == Dispatched(d.id, a.accessToken.value, a.refreshToken)
  {
    var s := RunNow(session, digests, accounts);
    if session.Some? {
      var userId := session.value.id;
      var found := DigestOfUser(digests, userId);
      assert DispatchCount([UserDigestRead(userId)]) == 0;
      if found.Some? && |found.value.twitterUsernames| > 0 {
        var account := GoogleAccount(accounts, userId);
        assert [UserDigestRead(userId), AccountRead(userId)][1..] == [AccountRead(userId)];
        assert DispatchCount([AccountRead(userId)]) == 0;
        if account.Some? && Truthy(account.value.accessToken) {
          var e := Dispatched(found.value.id, account.value.accessToken.value, account.value.refreshToken);
          assert [UserDigestRead(userId), AccountRead(userId), e][1..] == [AccountRead(userId), e];
          assert [AccountRead(userId), e][1..] == [e];
          assert DispatchCount([e]) == 1;
          assert DispatchCount([AccountRead(userId), e]) == 1;
          assert DispatchCount([UserDigestRead(userId), AccountRead(userId), e]) == 1;
        }
      }
    }
  }
}
