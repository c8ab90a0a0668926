/** `processDigest`: one run of the digest pipeline. A log row is created in
    "processing"; the digest's handles are fetched in slices of ten with a
    pause after each request but the last; the tweets are filtered to the
    time window, passed through the two AI stages and mailed; the log row
    then receives exactly one terminal update. */
module DigestProcessor {
  import opened Wrappers
  import opened Seqs
  import opened Json
  import opened Records
  import opened Store
  import opened TwitterService
  import opened LlmService
  import opened GmailService
  import opened FetchLoop

  // ---------------------------------------------------------- Projection

  function NameOf(t: Tweet): Option<string> {
    if t.author.Some? then t.author.value.name else None
  }

  function UsernameOf(t: Tweet): Option<string> {
    if t.author.Some? then t.author.value.username else None
  }

  /** `author?.name || author?.username || "Unknown"`. */
  function AuthorName(t: Tweet): (r: string)
    ensures Truthy(NameOf(t)) ==> r == NameOf(t).value
    ensures !Truthy(NameOf(t)) && Truthy(UsernameOf(t)) ==> r == UsernameOf(t).value
    ensures !Truthy(NameOf(t)) && !Truthy(UsernameOf(t)) ==> r == "Unknown"
  {
    OrElse(NameOf(t), OrElse(UsernameOf(t), "Unknown"))
  }

  /** The tweets as sent to the noise filter: same length and order, text
      and url copied, the author's display name. */
  function ProjectAll(ts: seq<Tweet>): (r: seq<TweetData>)
    ensures |r| == |ts|
    ensures forall i :: 0 <= i < |ts| ==>
      r[i].text == ts[i].text && r[i].url == ts[i].url && r[i].authorName == AuthorName(ts[i])
  {
    seq(|ts|, i requires 0 <= i < |ts| => TweetData(AuthorName(ts[i]), ts[i].text, ts[i].url))
  }

  /** Every tweet sent to the noise filter names an author, "Unknown" at worst. */
  lemma ProjectAllNamed(ts: seq<Tweet>)
    ensures forall x :: x in ProjectAll(ts) ==> x.authorName != ""
    ensures forall t :: t in ts && !Truthy(NameOf(t)) && !Truthy(UsernameOf(t)) ==>
      TweetData("Unknown", t.text, t.url) in ProjectAll(ts)
  {
    var r := ProjectAll(ts);
    forall t | t in ts && !Truthy(NameOf(t)) && !Truthy(UsernameOf(t))
      ensures TweetData("Unknown", t.text, t.url) in r
    {
      var i :| 0 <= i < |ts| && ts[i] == t;
      assert r[i] == TweetData("Unknown", t.text, t.url);
    }
  }

  /** The projection is per tweet: projecting a concatenation concatenates
      the projections. */
  lemma ProjectAllAppend(a: seq<Tweet>, b: seq<Tweet>)
    ensures ProjectAll(a + b) == ProjectAll(a) + ProjectAll(b)
  {
    assert forall i :: 0 <= i < |a| + |b| ==> (a + b)[i] == if i < |a| then a[i] else b[i - |a|];
  }

  // ---------------------------------------------------------- After fetch

  function Subject(clock: Clock): string {
    "Daily AI Digest - " + clock.localeDate
  }

  function Recent(flat: seq<Tweet>, d: Digest, clock: Clock): seq<Tweet> {
    FilterRecent(flat, clock.nowMs, d.timeWindowHours)
  }

  /** What the noise filter keeps of the recent tweets. */
  function Valuable(svc: Services, recent: seq<Tweet>): seq<Json> {
    FilterNoiseResult(svc.noiseCompletion(ProjectAll(recent)), svc.parse, ProjectAll(recent))
  }

  /** The terminal log update of a run and the requests made after the fetch. */
  datatype Outcome = Outcome(patch: LogPatch, events: seq<Event>)

  function Fail(message: string): LogPatch {
    LogPatch(Failed, Some(message), None, None, None)
  }

  /** Step 6 and 7: the mail is rendered and sent; "success" with both counts
      and the serialised digest only once Gmail answered, else the error. */
  function Delivered(svc: Services, d: Digest, scanned: nat, selected: nat, content: Json,
                     accessToken: string, refreshToken: Option<string>, clock: Clock): (o: Outcome)
    ensures forall e :: e in o.events ==> e.Rendered? || e.MailSent?
    ensures o.patch.status != Processing
  {
    var delivery := Deliver(svc, accessToken, refreshToken, d.recipientEmail, Subject(clock), content,
                            scanned, selected, clock.longDate);
    match delivery.result
    case Failure(err) => Outcome(Fail(err.message), delivery.events)
    case Success(_) =>
      Outcome(LogPatch(Succeeded, None, Some(scanned), Some(selected), Some(svc.stringify(content))), delivery.events)
  }

  /** Step 5 onwards: the formatting request comes first; a formatting error
      ends the run before any mail request. */
  function Formatted(svc: Services, d: Digest, scanned: nat, filtered: seq<Json>,
                     accessToken: string, refreshToken: Option<string>, clock: Clock): (o: Outcome)
    ensures |o.events| >= 1 && o.events[0] == FormatRequested(filtered)
    ensures forall e :: e in o.events ==> IsAiOrMail(e)
    ensures o.patch.status != Processing
  {
    var asked := [FormatRequested(filtered)];
    match FormatDigestResult(svc.formatCompletion(filtered), svc.parse)
    case Failure(err) => Outcome(Fail(err.message), asked)
    case Success(content) =>
      var out := Delivered(svc, d, scanned, |filtered|, content, accessToken, refreshToken, clock);
      Outcome(out.patch, asked + out.events)
  }

  /** Steps 3 onwards, for recent tweets: the noise-filter request comes
      first; when it keeps nothing the run fails with the recent count as
      scanned and 0 selected. */
  function Filtered(svc: Services, d: Digest, recent: seq<Tweet>,
                    accessToken: string, refreshToken: Option<string>, clock: Clock): (o: Outcome)
    ensures |o.events| >= 1 && o.events[0] == NoiseFilterRequested(ProjectAll(recent))
    ensures forall e :: e in o.events ==> IsAiOrMail(e)
    ensures o.patch.status != Processing
  {
    var filtered := Valuable(svc, recent);
    var asked := [NoiseFilterRequested(ProjectAll(recent))];
    if |filtered| == 0 then
      Outcome(LogPatch(Failed, Some("No valuable tweets after filtering"), Some(|recent|), Some(0), None), asked)
    else
      var out := Formatted(svc, d, |recent|, filtered, accessToken, refreshToken, clock);
      Outcome(out.patch, asked + out.events)
  }

  /** Steps 2 to 7 of the run, from the flattened tweets on. */
  function Conclude(svc: Services, d: Digest, flat: seq<Tweet>, accessToken: string, refreshToken: Option<string>, clock: Clock): (o: Outcome)
    ensures forall e :: e in o.events ==> IsAiOrMail(e)
    ensures o.patch.status != Processing
  {
    var recent := Recent(flat, d, clock);
    if |recent| == 0 then
      Outcome(LogPatch(Failed, Some("No recent tweets found"), Some(|flat|), None, None), [])
    else
      Filtered(svc, d, recent, accessToken, refreshToken, clock)
  }

  /** With no recent tweet the run fails with "No recent tweets found", the
      number of fetched tweets as scanned, and no AI or mail request. */
  lemma ConcludeNoRecent(svc: Services, d: Digest, flat: seq<Tweet>, accessToken: string, refreshToken: Option<string>, clock: Clock)
    requires |Recent(flat, d, clock)| == 0
    ensures Conclude(svc, d, flat, accessToken, refreshToken, clock) ==
      Outcome(LogPatch(Failed, Some("No recent tweets found"), Some(|flat|), None, None), [])
  {
  }

  /** When the noise filter keeps nothing the run fails with "No valuable
      tweets after filtering", the recent count as scanned and 0 selected,
      after the one noise-filter request. */
  lemma ConcludeNoValuable(svc: Services, d: Digest, flat: seq<Tweet>, accessToken: string, refreshToken: Option<string>, clock: Clock)
    requires |Recent(flat, d, clock)| > 0 && |Valuable(svc, Recent(flat, d, clock))| == 0
    ensures var recent := Recent(flat, d, clock);
      Conclude(svc, d, flat, accessToken, refreshToken, clock) ==
      Outcome(LogPatch(Failed, Some("No valuable tweets after filtering"), Some(|recent|), Some(0), None),
              [NoiseFilterRequested(ProjectAll(recent))])
  {
  }

  /** A successful delivery renders with both counts and sends once with the
      caller's tokens, and Gmail answered that send. */
  lemma DeliveredSuccess(svc: Services, d: Digest, scanned: nat, selected: nat, content: Json,
                         accessToken: string, refreshToken: Option<string>, clock: Clock)
    requires Delivered(svc, d, scanned, selected, content, accessToken, refreshToken, clock).patch.status == Succeeded
    ensures var o := Delivered(svc, d, scanned, selected, content, accessToken, refreshToken, clock);
      o.patch == LogPatch(Succeeded, None, Some(scanned), Some(selected), Some(svc.stringify(content))) &&
      |o.events| == 2 &&
      o.events[0].Rendered? && o.events[0].input.totalScanned == scanned && o.events[0].input.totalSelected == selected &&
      o.events[1].MailSent? && o.events[1].accessToken == accessToken && o.events[1].refreshToken == refreshToken &&
      svc.send(accessToken, refreshToken, o.events[1].raw).Sent?
  {
    DeliverOutcome(svc, accessToken, refreshToken, d.recipientEmail, Subject(clock), content,
                   scanned, selected, clock.longDate);
    var input := RenderInputOf(content, scanned, selected, clock.longDate);
    assert input.Success? && svc.render(input.value).Success?;
  }

  /** "success" is written only once the noise filter kept something, the
      formatting parsed and the delivery succeeded (see `DeliveredSuccess`):
      the log then records the recent and selected counts and the
      serialised digest, and the requests were the noise filter, the
      formatting and the delivery's, in that order. */
  lemma ConcludeSuccess(svc: Services, d: Digest, flat: seq<Tweet>, accessToken: string, refreshToken: Option<string>, clock: Clock)
    requires Conclude(svc, d, flat, accessToken, refreshToken, clock).patch.status == Succeeded
    ensures var recent := Recent(flat, d, clock); var filtered := Valuable(svc, recent);
      var content := FormatDigestResult(svc.formatCompletion(filtered), svc.parse);
      |recent| > 0 && |filtered| > 0 && content.Success? &&
      var del := Delivered(svc, d, |recent|, |filtered|, content.value, accessToken, refreshToken, clock);
      del.patch.status == Succeeded &&
      Conclude(svc, d, flat, accessToken, refreshToken, clock) ==
        Outcome(LogPatch(Succeeded, None, Some(|recent|), Some(|filtered|), Some(svc.stringify(content.value))),
                [NoiseFilterRequested(ProjectAll(recent))] + [FormatRequested(filtered)] + del.events)
  {
    var recent := Recent(flat, d, clock);
    var filtered := Valuable(svc, recent);
    FilteredSuccess(svc, d, recent, accessToken, refreshToken, clock);
    FormattedSuccess(svc, d, |recent|, filtered, accessToken, refreshToken, clock);
    var content := FormatDigestResult(svc.formatCompletion(filtered), svc.parse);
    var del := Delivered(svc, d, |recent|, |filtered|, content.value, accessToken, refreshToken, clock);
    AppendAssoc([NoiseFilterRequested(ProjectAll(recent))], [FormatRequested(filtered)], del.events);
  }

  /** Only a run whose noise filter kept something can succeed, and it then
      ends as the formatting stage does, after the noise-filter request. */
  lemma FilteredSuccess(svc: Services, d: Digest, recent: seq<Tweet>, accessToken: string, refreshToken: Option<string>, clock: Clock)
    requires Filtered(svc, d, recent, accessToken, refreshToken, clock).patch.status == Succeeded
    ensures var filtered := Valuable(svc, recent);
      var out := Formatted(svc, d, |recent|, filtered, accessToken, refreshToken, clock);
      |filtered| > 0 &&
      Filtered(svc, d, recent, accessToken, refreshToken, clock) == Outcome(out.patch, [NoiseFilterRequested(ProjectAll(recent))] + out.events)
  {
  }

  /** Only a formatting that parsed can succeed, and it then ends as the
      delivery does, after the formatting request. */
  lemma FormattedSuccess(svc: Services, d: Digest, scanned: nat, filtered: seq<Json>, accessToken: string, refreshToken: Option<string>, clock: Clock)
    requires Formatted(svc, d, scanned, filtered, accessToken, refreshToken, clock).patch.status == Succeeded
    ensures var content := FormatDigestResult(svc.formatCompletion(filtered), svc.parse);
      content.Success? &&
      var out := Delivered(svc, d, scanned, |filtered|, content.value, accessToken, refreshToken, clock);
      Formatted(svc, d, scanned, filtered, accessToken, refreshToken, clock) == Outcome(out.patch, [FormatRequested(filtered)] + out.events)
  {
  }

  /** A thrown error (a failed formatting call or parse, a failed render or
      send) ends the run as "failed" with that error's message, and no count
      is written. */
  lemma ConcludeThrown(svc: Services, d: Digest, flat: seq<Tweet>, accessToken: string, refreshToken: Option<string>, clock: Clock)
    requires |Recent(flat, d, clock)| > 0 && |Valuable(svc, Recent(flat, d, clock))| > 0
    ensures var recent := Recent(flat, d, clock); var filtered := Valuable(svc, recent);
      var content := FormatDigestResult(svc.formatCompletion(filtered), svc.parse);
      var o := Conclude(svc, d, flat, accessToken, refreshToken, clock);
      if content.Failure? then o == Outcome(Fail(content.error.message), [NoiseFilterRequested(ProjectAll(recent)), FormatRequested(filtered)])
      else
        var delivery := Deliver(svc, accessToken, refreshToken, d.recipientEmail, Subject(clock), content.value,
                                |recent|, |filtered|, clock.longDate);
        delivery.result.Failure? ==> o.patch == Fail(delivery.result.error.message)
  {
  }

  // ----------------------------------------------------------------- Run

  /** Steps 2 to 7 as a function of the digest and the flattened tweets. */
  type Finish = (Digest, seq<Tweet>) -> Outcome

  function ConcludeStep(svc: Services, accessToken: string, refreshToken: Option<string>, clock: Clock): Finish {
    (d, flat) => Conclude(svc, d, flat, accessToken, refreshToken, clock)
  }

  /** A finish that ends in "success" or "failed" and only asks the AI and the mail service. */
  ghost predicate Terminal(finish: Finish) {
    forall d, flat :: finish(d, flat).patch.status != Processing && OnlyAiOrMail(finish(d, flat).events)
  }

  predicate OnlyAiOrMail(es: seq<Event>) {
    forall e :: e in es ==> IsAiOrMail(e)
  }

  lemma ConcludeStepTerminal(svc: Services, accessToken: string, refreshToken: Option<string>, clock: Clock)
    ensures Terminal(ConcludeStep(svc, accessToken, refreshToken, clock))
  {
    forall d, flat ensures ConcludeStep(svc, accessToken, refreshToken, clock)(d, flat).patch.status != Processing &&
                           OnlyAiOrMail(ConcludeStep(svc, accessToken, refreshToken, clock)(d, flat).events) {
      var o := Conclude(svc, d, flat, accessToken, refreshToken, clock);
    }
  }

  /** The terminal update, the cache and the requests of one run between the
      creation of its log row and that row's update. */
  datatype Run = Run(patch: LogPatch, cache: map<string, CacheEntry>, events: seq<Event>)

  /** `processDigest` from the digest lookup on, with `step` fetching one
      handle and `finish` doing the rest; a missing digest throws "Digest not found". */
  function RunSpec(step: Step, finish: Finish, digests: seq<Digest>, cache: map<string, CacheEntry>, digestId: string): Run
  {
    match DigestById(digests, digestId)
    case None => Run(Fail("Digest not found"), cache, [DigestRead(digestId)])
    case Some(d) =>
      var fetch := FetchPrefix(step, cache, d.twitterUsernames, |d.twitterUsernames|);
      var out := finish(d, Flatten(fetch.results));
      Run(out.patch, fetch.cache, [DigestRead(digestId)] + fetch.events + out.events)
  }

  /** Everything a run asks of the outside world, the log writes included. */
  function RunJournal(logId: nat, digestId: string, now: int, run: Run): seq<Event> {
    [LogCreated(logId, NewLog(digestId, now))] + run.events + [LogUpdated(logId, run.patch)]
  }

  predicate IsLogWrite(e: Event) {
    e.LogCreated? || e.LogUpdated?
  }

  /** Between its creation and its one update the log row is not written. */
  lemma RunJournalShape(logId: nat, digestId: string, now: int, run: Run)
    requires |run.events| >= 1 && forall e :: e in run.events ==> !IsLogWrite(e)
    ensures var j := RunJournal(logId, digestId, now, run);
      |j| >= 3 && j[0] == LogCreated(logId, NewLog(digestId, now)) && j[1] == run.events[0] &&
      j[|j| - 1] == LogUpdated(logId, run.patch) &&
      forall i :: 0 < i < |j| - 1 ==> !IsLogWrite(j[i])
  {
    var j := RunJournal(logId, digestId, now, run);
    forall i | 0 < i < |j| - 1 ensures !IsLogWrite(j[i]) {
      assert j[i] == run.events[i - 1];
    }
  }

  /** A run makes only the digest read, fetch requests and AI or mail requests,
      and ends in "success" or "failed". */
  lemma RunEvents(step: Step, finish: Finish, digests: seq<Digest>, cache: map<string, CacheEntry>, digestId: string)
    requires LooksUpOnce(step) && Terminal(finish)
    ensures var run := RunSpec(step, finish, digests, cache, digestId);
      |run.events| >= 1 && run.events[0] == DigestRead(digestId) && run.patch.status != Processing &&
      forall e :: e in run.events ==> e == DigestRead(digestId) || IsFetchEvent(e) || IsAiOrMail(e)
  {
    match DigestById(digests, digestId)
    case None =>
    case Some(d) =>
      var fetch := FetchPrefix(step, cache, d.twitterUsernames, |d.twitterUsernames|);
      FetchPrefixEvents(step, cache, d.twitterUsernames, |d.twitterUsernames|);
      var out := finish(d, Flatten(fetch.results));
      assert OnlyAiOrMail(out.events);
  }

  /** The log row is created, in "processing" with both counts 0, before the
      digest is read or anything else is asked; it is written exactly once
      more, by the last request of the run, with "success" or "failed". */
  lemma RunLogWrites(step: Step, finish: Finish, digests: seq<Digest>, cache: map<string, CacheEntry>, digestId: string,
                     now: int, logId: nat)
    requires LooksUpOnce(step) && Terminal(finish)
    ensures var run := RunSpec(step, finish, digests, cache, digestId);
      var j := RunJournal(logId, digestId, now, run);
      |j| >= 3 &&
      j[0] == LogCreated(logId, DigestLog(digestId, Processing, 0, 0, None, None, now)) &&
      j[1] == DigestRead(digestId) &&
      j[|j| - 1] == LogUpdated(logId, run.patch) &&
      (forall i :: 0 < i < |j| - 1 ==> !IsLogWrite(j[i])) &&
      run.patch.status != Processing
  {
    var run := RunSpec(step, finish, digests, cache, digestId);
    RunEvents(step, finish, digests, cache, digestId);
    assert forall e :: e in run.events ==> !IsLogWrite(e);
    RunJournalShape(logId, digestId, now, run);
  }

  /** A run whose digest exists fetches every handle, looking each up once in
      order and pausing as the delay rule says, and ends as `finish` decides on
      the fetched tweets; one whose digest is missing fails with "Digest not
      found" after reading it. */
  lemma RunCases(step: Step, finish: Finish, digests: seq<Digest>, cache: map<string, CacheEntry>, digestId: string)
    requires LooksUpOnce(step)
    ensures var run := RunSpec(step, finish, digests, cache, digestId);
      match DigestById(digests, digestId)
      case None => run == Run(LogPatch(Failed, Some("Digest not found"), None, None, None), cache, [DigestRead(digestId)])
      case Some(d) =>
        var fetch := FetchPrefix(step, cache, d.twitterUsernames, |d.twitterUsernames|);
        Lookups(fetch.events) == NormalizeAll(d.twitterUsernames) &&
        PauseCount(fetch.events) == Pausing(d.twitterUsernames, |d.twitterUsernames|) &&
        run.patch == finish(d, Flatten(fetch.results)).patch
  {
    match DigestById(digests, digestId)
    case None =>
    case Some(d) =>
      var h := d.twitterUsernames;
      FetchPrefixLookups(step, cache, h, |h|);
      FetchPrefixPauses(step, cache, h, |h|);
      assert h[..|h|] == h;
  }

  /** Before recent tweets exist no AI or mail request is made. */
  lemma RunNoRecentNoAi(step: Step, digests: seq<Digest>, cache: map<string, CacheEntry>, svc: Services, digestId: string,
                        accessToken: string, refreshToken: Option<string>, clock: Clock, d: Digest)
    requires LooksUpOnce(step) && DigestById(digests, digestId) == Some(d)
    requires var fetch := FetchPrefix(step, cache, d.twitterUsernames, |d.twitterUsernames|);
      |Recent(Flatten(fetch.results), d, clock)| == 0
    ensures var run := RunSpec(step, ConcludeStep(svc, accessToken, refreshToken, clock), digests, cache, digestId);
      var fetch := FetchPrefix(step, cache, d.twitterUsernames, |d.twitterUsernames|);
      run.patch == LogPatch(Failed, Some("No recent tweets found"), Some(|Flatten(fetch.results)|), None, None) &&
      forall e :: e in run.events ==> !IsAiOrMail(e)
  {
    var fetch := FetchPrefix(step, cache, d.twitterUsernames, |d.twitterUsernames|);
    var finish := ConcludeStep(svc, accessToken, refreshToken, clock);
    ConcludeNoRecent(svc, d, Flatten(fetch.results), accessToken, refreshToken, clock);
    assert finish(d, Flatten(fetch.results)).events == [];
    RunQuiet(step, finish, digests, cache, digestId, d);
  }

  /** A run whose finish asks nothing makes only the digest read and the
      fetch requests. */
  lemma RunQuiet(step: Step, finish: Finish, digests: seq<Digest>, cache: map<string, CacheEntry>, digestId: string, d: Digest)
    requires LooksUpOnce(step) && DigestById(digests, digestId) == Some(d)
    requires finish(d, Flatten(FetchPrefix(step, cache, d.twitterUsernames, |d.twitterUsernames|).results)).events == []
    ensures var run := RunSpec(step, finish, digests, cache, digestId);
      var fetch := FetchPrefix(step, cache, d.twitterUsernames, |d.twitterUsernames|);
      run.patch == finish(d, Flatten(fetch.results)).patch &&
      forall e :: e in run.events ==> !IsAiOrMail(e)
  {
    var fetch := FetchPrefix(step, cache, d.twitterUsernames, |d.twitterUsernames|);
    FetchPrefixEvents(step, cache, d.twitterUsernames, |d.twitterUsernames|);
    assert RunSpec(step, finish, digests, cache, digestId).events == [DigestRead(digestId)] + fetch.events + [];
  }

  /** The log row after a run: created in "processing", then patched once;
      on the no-recent path it keeps 0 selected. */
  lemma NoRecentLogRow(digestId: string, now: int, scanned: int)
    ensures ApplyPatch(NewLog(digestId, now), LogPatch(Failed, Some("No recent tweets found"), Some(scanned), None, None))
      == DigestLog(digestId, Failed, scanned, 0, Some("No recent tweets found"), None, now)
  {
  }

  /** Steps 2 to 7 on the backend: the requests after the fetch are made in
      order and the log row receives the run's one terminal update. */
  method ConcludeRun(b: Backend, svc: Services, d: Digest, allTweetsFlat: seq<Tweet>, logId: nat,
                     accessToken: string, refreshToken: Option<string>, clock: Clock)
    requires logId < |b.logs|
    modifies b`logs, b`journal
    ensures var o := Conclude(svc, d, allTweetsFlat, accessToken, refreshToken, clock);
      b.logs == old(b.logs)[logId := ApplyPatch(old(b.logs)[logId], o.patch)] &&
      b.journal == old(b.journal) + o.events + [LogUpdated(logId, o.patch)]
  {
    var recentTweets := FilterRecent(allTweetsFlat, clock.nowMs, d.timeWindowHours);
    if |recentTweets| == 0 {
      b.UpdateLog(logId, LogPatch(Failed, Some("No recent tweets found"), Some(|allTweetsFlat|), None, None));
      assert old(b.journal) + [] == old(b.journal);
      return;
    }
    FilterAndSend(b, svc, d, recentTweets, logId, accessToken, refreshToken, clock);
  }

  /** Steps 3 to 7 on the backend, for recent tweets. */
  method FilterAndSend(b: Backend, svc: Services, d: Digest, recentTweets: seq<Tweet>, logId: nat,
                       accessToken: string, refreshToken: Option<string>, clock: Clock)
    requires logId < |b.logs|
    modifies b`logs, b`journal
    ensures var o := Filtered(svc, d, recentTweets, accessToken, refreshToken, clock);
      b.logs == old(b.logs)[logId := ApplyPatch(old(b.logs)[logId], o.patch)] &&
      b.journal == old(b.journal) + o.events + [LogUpdated(logId, o.patch)]
  {
    var tweetsForLlm := ProjectAll(recentTweets);
    b.Record([NoiseFilterRequested(tweetsForLlm)]);
    var filteredTweets := FilterNoiseResult(svc.noiseCompletion(tweetsForLlm), svc.parse, tweetsForLlm);
    if |filteredTweets| == 0 {
      b.UpdateLog(logId, LogPatch(Failed, Some("No valuable tweets after filtering"), Some(|recentTweets|), Some(0), None));
      return;
    }
    FormatAndSend(b, svc, d, |recentTweets|, filteredTweets, logId, accessToken, refreshToken, clock);
    ghost var out := Formatted(svc, d, |recentTweets|, filteredTweets, accessToken, refreshToken, clock);
    AppendAssoc(old(b.journal), [NoiseFilterRequested(tweetsForLlm)], out.events);
  }

  /** Steps 5 to 7 on the backend. */
  method FormatAndSend(b: Backend, svc: Services, d: Digest, scanned: nat, filteredTweets: seq<Json>, logId: nat,
                       accessToken: string, refreshToken: Option<string>, clock: Clock)
    requires logId < |b.logs|
    modifies b`logs, b`journal
    ensures var o := Formatted(svc, d, scanned, filteredTweets, accessToken, refreshToken, clock);
      b.logs == old(b.logs)[logId := ApplyPatch(old(b.logs)[logId], o.patch)] &&
      b.journal == old(b.journal) + o.events + [LogUpdated(logId, o.patch)]
  {
    b.Record([FormatRequested(filteredTweets)]);
    var formatted := FormatDigestResult(svc.formatCompletion(filteredTweets), svc.parse);
    if formatted.Failure? {
      b.UpdateLog(logId, Fail(formatted.error.message));
      return;
    }
    var digestContent := formatted.value;
    var delivery := Deliver(svc, accessToken, refreshToken, d.recipientEmail, Subject(clock), digestContent,
                            scanned, |filteredTweets|, clock.longDate);
    b.Record(delivery.events);
    AppendAssoc(old(b.journal), [FormatRequested(filteredTweets)], delivery.events);
    if delivery.result.Failure? {
      b.UpdateLog(logId, Fail(delivery.result.error.message));
    } else {
      b.UpdateLog(logId, LogPatch(Succeeded, None, Some(scanned), Some(|filteredTweets|), Some(svc.stringify(digestContent))));
    }
  }

  /** `processDigest`: creates the log row, runs, and updates the row once;
      it never throws. */
  method ProcessDigest(b: Backend, svc: Services, digestId: string, accessToken: string, refreshToken: Option<string>, clock: Clock)
    modifies b`logs, b`cache, b`journal
    ensures var run := RunSpec(FetchStep(svc, clock.nowMs), ConcludeStep(svc, accessToken, refreshToken, clock),
                               old(b.digests), old(b.cache), digestId);
      b.logs == old(b.logs) + [ApplyPatch(NewLog(digestId, clock.nowMs), run.patch)] &&
      b.cache == run.cache &&
      b.journal == old(b.journal) + RunJournal(|old(b.logs)|, digestId, clock.nowMs, run)
  {
    var logId := b.CreateLog(digestId, clock.nowMs);
    var digest := b.FindDigest(digestId);
    if digest.None? {
      b.UpdateLog(logId, Fail("Digest not found"));
      return;
    }
    var d := digest.value;
    var allTweets := FetchAllTweets(b, svc, d.twitterUsernames, clock.nowMs);
    ghost var fetch := FetchPrefix(FetchStep(svc, clock.nowMs), old(b.cache), d.twitterUsernames, |d.twitterUsernames|);
    var allTweetsFlat := Flatten(allTweets);
    ConcludeRun(b, svc, d, allTweetsFlat, logId, accessToken, refreshToken, clock);
    ghost var out := Conclude(svc, d, allTweetsFlat, accessToken, refreshToken, clock);
    ghost var created := [LogCreated(logId, NewLog(digestId, clock.nowMs))];
    AppendAssoc(old(b.journal), created, [DigestRead(digestId)]);
    AppendAssoc(old(b.journal), created + [DigestRead(digestId)], fetch.events);
    AppendAssoc(old(b.journal), created + [DigestRead(digestId)] + fetch.events, out.events);
    AppendAssoc(created, [DigestRead(digestId)], fetch.events);
    AppendAssoc(created, [DigestRead(digestId)] + fetch.events, out.events);
    AppendAssoc(old(b.journal), created + ([DigestRead(digestId)] + fetch.events + out.events), [LogUpdated(logId, out.patch)]);
  }
}
