/**
 * The `/api/polls` route: `POST` (create a poll) and `GET` (list public
 * polls). The auth lookup, the database calls and the body parser are
 * inputs: `auth` is what `supabase.auth.getUser` reported, `body` is the
 * parsed JSON body (None when it could not be parsed or was `null`), and
 * `createPoll`/`fetch` stand for the `create_poll_with_options` RPC and
 * `getPublicPollsServer`.
 */
module PollsApi {
  import opened Wrappers
  import opened PollTypes

  /** What the auth lookup returned: whether it reported an error, and the user. */
  datatype AuthResult = AuthResult(error: bool, user: Option<string>)

  /**
   * The parsed request body (`CreatePollData`). A field that is missing or
   * JSON `null` is None; the expiry arrives as whatever JSON carried it, a string.
   */
  datatype CreatePollBody = CreatePollBody(
    title: Option<string>,
    description: Option<string>,
    options: Option<seq<string>>,
    isPublic: Option<bool>,
    allowMultiple: Option<bool>,
    requireAuth: Option<bool>,
    expiresAt: Option<string>)

  /** The arguments passed to `create_poll_with_options`. */
  datatype CreateArgs = CreateArgs(
    pollTitle: string,
    pollOptions: seq<string>,
    pollDescription: Option<string>,
    isPublic: bool,
    allowMultiple: bool,
    requireAuth: bool,
    expiresAt: Option<string>)

  /** What an RPC returned: its data, and whether an error object came back. */
  datatype RpcResult<T> = RpcResult(data: Option<T>, failed: bool)

  /** What `getPublicPollsServer` returned. */
  datatype PollsFetch = PollsFetch(data: Option<seq<Poll>>, error: Option<string>)

  datatype ResponseBody =
    | ErrorBody(error: string)
    | PollIdBody(pollId: Option<string>)
    | PollsBody(polls: seq<Poll>)

  /** A JSON response; `NextResponse.json` without a status is 200. */
  datatype Response = Response(status: int, body: ResponseBody)

  const AuthRequired := Response(401, ErrorBody("Authentication required"))
  const MissingFields := Response(400, ErrorBody("Title and at least 2 options are required"))
  const TooManyOptions := Response(400, ErrorBody("Maximum 10 options allowed"))
  const CreateFailed := Response(500, ErrorBody("Failed to create poll"))
  const InternalError := Response(500, ErrorBody("Internal server error"))
  const FetchFailed := Response(500, ErrorBody("Failed to fetch polls"))

  const DefaultPage := 0
  const DefaultPageSize := 20

  /** `authError || !user` is false. */
  predicate Authorized(auth: AuthResult)
  {
    !auth.error && auth.user.Some?
  }

  /** The first validation check passes: a truthy title and at least two options. */
  predicate HasTitleAndOptions(b: CreatePollBody)
  {
    TruthyString(b.title) && b.options.Some? && |b.options.value| >= MinOptions
  }

  /** Both validation checks pass. */
  predicate ValidBody(b: CreatePollBody)
  {
    HasTitleAndOptions(b) && |b.options.value| <= MaxOptions
  }

  /** The create call's arguments, with the optional fields defaulted. */
  function Arguments(b: CreatePollBody, expiresAt: Option<string>): (a: CreateArgs)
    requires ValidBody(b)
    ensures a.pollTitle == b.title.value && a.pollOptions == b.options.value
    ensures 2 <= |a.pollOptions| <= 10 && a.pollTitle != ""
    ensures a.pollDescription.Some? <==> TruthyString(b.description)
    ensures a.pollDescription.Some? ==> a.pollDescription == b.description
    ensures b.isPublic.None? ==> a.isPublic
    ensures b.allowMultiple.None? ==> !a.allowMultiple
    ensures b.requireAuth.None? ==> !a.requireAuth
    ensures b.isPublic.Some? ==> a.isPublic == b.isPublic.value
    ensures b.allowMultiple.Some? ==> a.allowMultiple == b.allowMultiple.value
    ensures b.requireAuth.Some? ==> a.requireAuth == b.requireAuth.value
    ensures a.expiresAt == expiresAt
  {
    CreateArgs(
      b.title.value,
      b.options.value,
      if TruthyString(b.description) then b.description else None,
      b.isPublic.GetOr(true),
      b.allowMultiple.GetOr(false),
      b.requireAuth.GetOr(false),
      expiresAt)
  }

  /** The response to the create call's outcome. */
  function Created(result: RpcResult<string>): (r: Response)
    ensures result.failed <==> r == CreateFailed
    ensures !result.failed ==> r.status == 200 && r.body == PollIdBody(result.data)
  {
    if result.failed then CreateFailed else Response(200, PollIdBody(result.data))
  }

  /**
   * The checks that end a request before the create call: authentication,
   * an unreadable body, then the two option-count checks in order.
   */
  function Gate(auth: AuthResult, body: Option<CreatePollBody>): (r: Option<Response>)
    ensures r.None? <==> Authorized(auth) && body.Some? && ValidBody(body.value)
    ensures !Authorized(auth) ==> r == Some(AuthRequired)
    ensures Authorized(auth) && body.None? ==> r == Some(InternalError)
  {
    if !Authorized(auth) then Some(AuthRequired)
    else if body.None? then Some(InternalError)
    else if !HasTitleAndOptions(body.value) then Some(MissingFields)
    else if |body.value.options.value| > MaxOptions then Some(TooManyOptions)
    else None
  }

  /**
   * `POST /api/polls` as written. `body.expiresAt?.toISOString()` calls a
   * Date method on a parsed JSON value, which is never a Date: for any
   * expiry that is present the call throws and the handler answers 500.
   */
  function Post(auth: AuthResult, body: Option<CreatePollBody>,
                createPoll: CreateArgs -> RpcResult<string>): (r: Response)
    ensures r == AuthRequired <==> !Authorized(auth)
    ensures Authorized(auth) && body.None? ==> r == InternalError
    ensures r == MissingFields <==> Authorized(auth) && body.Some? && !HasTitleAndOptions(body.value)
    ensures r == TooManyOptions <==> Authorized(auth) && body.Some? && HasTitleAndOptions(body.value)
                                     && |body.value.options.value| > MaxOptions
    ensures r.status == 200 ==> Authorized(auth) && body.Some? && ValidBody(body.value)
    ensures Authorized(auth) && body.Some? && ValidBody(body.value) && body.value.expiresAt.None?
            ==> r == Created(createPoll(Arguments(body.value, None)))
  {
    match Gate(auth, body)
    case Some(early) => early
    case None =>
      if body.value.expiresAt.Some? then InternalError
      else Created(createPoll(Arguments(body.value, None)))
  }

  /** Any present expiry makes `Post` answer 500 without calling the database. */
  lemma PostRejectsEveryExpiry(auth: AuthResult, b: CreatePollBody,
                               createPoll: CreateArgs -> RpcResult<string>)
    requires Authorized(auth) && ValidBody(b) && b.expiresAt.Some?
    ensures Post(auth, Some(b), createPoll) == InternalError
  {
  }

  /** A concrete request that shows it: a valid poll with an expiry string. */
  lemma PostRejectsExpiryExample(createPoll: CreateArgs -> RpcResult<string>)
    ensures var b := CreatePollBody(Some("Lunch?"), None, Some(["Pizza", "Soup"]),
                                    None, None, None, Some("2025-01-01T00:00:00.000Z"));
            Post(AuthResult(false, Some("u1")), Some(b), createPoll) == InternalError
  {
  }

  /** The expiry a JSON body can carry, passed on as the create call expects (empty means none). */
  function IntendedExpiry(e: Option<string>): (r: Option<string>)
    ensures r.Some? <==> TruthyString(e)
    ensures r.Some? ==> r == e
  {
    if TruthyString(e) then e else None
  }

  /** `POST /api/polls` as evidently intended: the expiry is forwarded, not dereferenced as a Date. */
  function PostIntended(auth: AuthResult, body: Option<CreatePollBody>,
                        createPoll: CreateArgs -> RpcResult<string>): (r: Response)
    ensures Gate(auth, body).Some? ==> r == Gate(auth, body).value
    ensures Authorized(auth) && body.Some? && ValidBody(body.value)
            ==> r == Created(createPoll(Arguments(body.value, IntendedExpiry(body.value.expiresAt))))
  {
    match Gate(auth, body)
    case Some(early) => early
    case None => Created(createPoll(Arguments(body.value, IntendedExpiry(body.value.expiresAt))))
  }

  /**
   * The intended handler reaches the database for every valid request, and
   * agrees with the handler as written whenever no expiry is sent.
   */
  lemma PostIntendedAgrees(auth: AuthResult, body: Option<CreatePollBody>,
                           createPoll: CreateArgs -> RpcResult<string>)
    ensures body.Some? && body.value.expiresAt.None?
            ==> PostIntended(auth, body, createPoll) == Post(auth, body, createPoll)
    ensures Authorized(auth) && body.Some? && ValidBody(body.value)
            && !createPoll(Arguments(body.value, IntendedExpiry(body.value.expiresAt))).failed
            ==> PostIntended(auth, body, createPoll).status == 200
  {
  }

  /** An unauthenticated request gets 401 whatever its body, before the body is read. */
  lemma UnauthorizedIgnoresBody(auth: AuthResult, b1: Option<CreatePollBody>, b2: Option<CreatePollBody>,
                                createPoll: CreateArgs -> RpcResult<string>)
    requires !Authorized(auth)
    ensures Post(auth, b1, createPoll) == Post(auth, b2, createPoll) == AuthRequired
  {
  }

  /** `GET /api/polls`: page 0 and page size 20 unless given; 500 on a fetch error, else the polls or []. */
  function Get(page: Option<int>, pageSize: Option<int>,
               fetch: (int, int) -> PollsFetch): (r: Response)
    ensures var q := fetch(page.GetOr(DefaultPage), pageSize.GetOr(DefaultPageSize));
            && (r == FetchFailed <==> TruthyString(q.error))
            && (r.status == 200 <==> !TruthyString(q.error))
            && (r.status == 200 ==> r.body.PollsBody?
                                    && (q.data.Some? ==> r.body.polls == q.data.value)
                                    && (q.data.None? ==> r.body.polls == []))
  {
    var q := fetch(page.GetOr(DefaultPage), pageSize.GetOr(DefaultPageSize));
    if TruthyString(q.error) then FetchFailed
    else Response(200, PollsBody(q.data.GetOr([])))
  }

  /** Without query parameters the list is fetched with page 0 and page size 20. */
  lemma GetDefaults(fetch: (int, int) -> PollsFetch)
    requires !TruthyString(fetch(0, 20).error) && fetch(0, 20).data.Some?
    ensures Get(None, None, fetch) == Response(200, PollsBody(fetch(0, 20).data.value))
  {
  }
}
