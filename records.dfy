/** The records the core reads and writes (database rows, API payloads), the
    replies of the external services, and the events that make up the
    journal of everything the code asks of the outside world. */
module Records {
  import opened Wrappers
  import opened Json
  import Base64

  // ---------------------------------------------------------------- Twitter

  datatype Author = Author(name: Option<string>, username: Option<string>)

  /** A tweet as the last-tweets endpoint returns it. `createdAt` is the
      result of `new Date(tweet.createdAt)` in milliseconds since the epoch,
      None when that date is invalid; `retweeted` is the truthiness of
      `retweeted_tweet`. */
  datatype Tweet = Tweet(
    text: string,
    createdAt: Option<int>,
    url: string,
    author: Option<Author>,
    retweeted: bool)

  /** The `{author_name, text, url}` shape sent to the noise filter. */
  datatype TweetData = TweetData(authorName: string, text: string, url: string)

  // --------------------------------------------------------------- Database

  datatype Digest = Digest(
    id: string,
    userId: string,
    name: string,
    twitterUsernames: seq<string>,
    scheduleHour: int,
    scheduleTimezone: string,
    timeWindowHours: int,
    recipientEmail: string,
    isActive: bool)

  /** The status column, stored as "processing", "success" and "failed". */
  datatype Status = Processing | Succeeded | Failed

  /** A row of the digest-log table (one per run of the pipeline). */
  datatype DigestLog = DigestLog(
    digestId: string,
    status: Status,
    totalScanned: int,
    totalSelected: int,
    errorMessage: Option<string>,
    digestContent: Option<string>,
    executedAt: int)

  /** The `data` of a digest-log update: a field that is None is not written. */
  datatype LogPatch = LogPatch(
    status: Status,
    errorMessage: Option<string>,
    totalScanned: Option<int>,
    totalSelected: Option<int>,
    digestContent: Option<string>)

  /** An OAuth account row of a user (provider "google" for Gmail). */
  datatype Account = Account(
    userId: string,
    provider: string,
    accessToken: Option<string>,
    refreshToken: Option<string>)

  /** A row of the handle cache, keyed by normalised handle. */
  datatype CacheEntry = CacheEntry(userId: string, displayName: string, cachedAt: int)

  /** The signed-in user of a session. */
  datatype SessionUser = SessionUser(id: string, email: Option<string>)

  /** The body of a settings update (`req.json()`): a field that is None
      was absent and is therefore not written by the update. */
  datatype DigestBody = DigestBody(
    name: Option<string>,
    twitterUsernames: Option<seq<string>>,
    scheduleHour: Option<int>,
    timeWindowHours: Option<int>,
    recipientEmail: Option<string>,
    isActive: Option<bool>)

  // ------------------------------------------------------ External replies

  /** The reply of the user-info endpoint: a thrown request error, or the
      body's `data.id` and `data.name` (None when missing). */
  datatype UserInfoReply = UserInfoThrew(error: Error) | UserInfo(id: Option<string>, name: Option<string>)

  /** The reply of the last-tweets endpoint: a thrown request error, or the
      envelope's `status` and `data.tweets`. */
  datatype TweetsReply = TweetsThrew(error: Error) | TweetsEnvelope(status: Option<string>, tweets: Option<seq<Tweet>>)

  /** The reply of a chat completion: a thrown error, or
      `choices[0]?.message?.content`. */
  datatype Completion = CompletionThrew(error: Error) | Completed(content: Option<string>)

  /** The props given to the email component: both counts, the five lists
      (None when the digest value lacks them) and the long date. */
  datatype RenderInput = RenderInput(
    totalScanned: int,
    totalSelected: int,
    generalUpdates: Option<Json>,
    launches: Option<Json>,
    tools: Option<Json>,
    productInspirations: Option<Json>,
    marketingIdeas: Option<Json>,
    date: string)

  /** The reply of Gmail's send call: a thrown error, or the message id. */
  datatype SendReply = SendThrew(error: Error) | Sent(messageId: Option<string>)

  /** The behaviour of every collaborator whose internals are not visible,
      as total functions of what the code sends them. */
  datatype Services = Services(
    userInfo: string -> UserInfoReply,            // GET /twitter/user/info?userName=
    lastTweets: string -> TweetsReply,            // GET /twitter/user/last_tweets?userId=
    noiseCompletion: seq<TweetData> -> Completion, // stage-1 chat completion
    formatCompletion: seq<Json> -> Completion,     // stage-2 chat completion
    parse: string -> Result<Json, Error>,          // JSON.parse
    stringify: Json -> string,                     // JSON.stringify
    render: RenderInput -> Result<string, Error>,  // render(DailyDigestEmail(...))
    utf8: string -> seq<Base64.Byte>,              // Buffer.from(string)
    send: (string, Option<string>, string) -> SendReply) // users.messages.send

  /** What the clock says during one request. */
  datatype Clock = Clock(nowMs: int, localeDate: string, longDate: string, hour: int)

  // ---------------------------------------------------------------- Journal

  /** One request of the code to a collaborator, in the order it is made. */
  datatype Event =
    // database
    | LogCreated(logId: nat, log: DigestLog)
    | LogUpdated(logId: nat, patch: LogPatch)
    | DigestRead(digestId: string)
    | UserDigestRead(userId: string)
    | DueDigestsRead(hour: int)
    | DigestCreated(digest: Digest)
    | DigestUpdated(digestId: string, body: DigestBody)
    | AccountRead(userId: string)
    | CacheRead(key: string)
    | CacheUpserted(key: string, userId: string, displayName: string)
    | CacheDeleted(keys: seq<string>)
    // Twitter API
    | UserInfoRequested(userName: string)
    | TweetsRequested(userId: string)
    // timers
    | Paused(ms: nat)
    // OpenAI
    | NoiseFilterRequested(tweets: seq<TweetData>)
    | FormatRequested(valuable: seq<Json>)
    // mail
    | Rendered(input: RenderInput)
    | MailSent(accessToken: string, refreshToken: Option<string>, raw: string)
    // fire-and-forget start of a pipeline run
    | Dispatched(digestId: string, accessToken: string, refreshToken: Option<string>)

  /** Requests that go to the AI service or the mail transport. */
  predicate IsAiOrMail(e: Event) {
    e.NoiseFilterRequested? || e.FormatRequested? || e.Rendered? || e.MailSent?
  }

  // ------------------------------------------------------------------- HTTP

  /** One entry of the cron sweep's `results`. */
  datatype CronEntry = CronEntry(digestId: string, status: string, error: Option<string>)

  datatype Body =
    | ErrorBody(error: string)
    | SuccessBody
    | MessageBody(message: string)
    | CronBody(processedCount: nat, results: seq<CronEntry>)

  /** `NextResponse.json(body, {status})`. */
  datatype Response = Response(status: nat, body: Body)
}
