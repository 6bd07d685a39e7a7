/** What the one reply to a request says: its status, its envelope and its error, for every way
    a request can come out. */
module ReplyContents {
  import opened Options
  import opened ResponseSigning

  // ------------------------------------------------------ what a reply says

  /** The reply has this status, and its body is the envelope of the context's version with
      this status, the context's message id and this error. */
  predicate Says(m: Module, ctx: StepContext, r: Reply, http: int, status: Status, error: Option<BecknError>) {
    && r.status == http
    && r.body == m.encode(if m.atLeastV2(ctx.contextVersion) then V2(status, ctx.contextMessageId, error) else PreV2(status, error))
  }

  predicate SaysInternal(m: Module, ctx: StepContext, r: Reply) {
    Says(m, ctx, r, 500, NACK,
         Some(BecknError("NET_INTERNAL_ERROR", "Internal server error, MessageID: " + ctx.contextMessageId)))
  }

  /** How an error is told: schema and reporting errors as bad requests, coded errors under
      their own status, an acknowledgement without callback as accepted, with the body status
      it brings, from v2 on, and anything else as an internal error without its details. */
  predicate Tells(m: Module, ctx: StepContext, r: Reply, e: Error) {
    match e
    case SchemaInvalid(report) => Says(m, ctx, r, 400, NACK, Some(report))
    case Reporting(report) => Says(m, ctx, r, 400, NACK, Some(report))
    case Coded(report, status) => Says(m, ctx, r, status, NACK, Some(report))
    case AckNoCallback(report, status) =>
      if m.atLeastV2(ctx.contextVersion) then Says(m, ctx, r, 202, status, Some(report)) else SaysInternal(m, ctx, r)
    case Plain => SaysInternal(m, ctx, r)
  }

  lemma RejectTells(m: Module, w: World, s: Served, e: Error)
    requires s.replies == []
    ensures |Reject(m, w, s, e).replies| == 1 && Tells(m, s.ctx, Reject(m, w, s, e).replies[0], e)
  {
  }

  /** A request whose steps fail is told the error of the step that failed. */
  lemma FailureIsTold(m: Module, w: World, ctx: StepContext)
    requires RunSteps(m.steps, ctx).error.Some?
    ensures var r, replies := RunSteps(m.steps, ctx), Serve(m, w, ctx).replies;
            |replies| == 1 && Tells(m, r.ctx, replies[0], r.error.value)
  {
    RejectTells(m, w, Served(RunSteps(m.steps, ctx).ctx, None, [], 0), RunSteps(m.steps, ctx).error.value);
  }

  /** The error the response steps end in, before a reply of the adapter's own. */
  function SigningFailure(m: Module, w: World, ctx: StepContext): Option<Error> {
    var n := Signers(m.responseSteps);
    if n == 0 || !m.atLeastV2(ctx.version) then None
    else if ctx.subId == "" then Some(Coded(BecknError("SCH_INVALID_FORMAT", "BAD Request: subscriberID not set"), 400))
    else if FirstRefusal(w, 0, n) == n then None
    else w.refusal(FirstRefusal(w, 0, n))
  }

  lemma {:induction false} LocalsFail(m: Module, w: World, steps: seq<ResponseStep>, s: Served)
    requires !CanSign(m, s.ctx)
    ensures RunLocals(m, w, steps, s).error
         == if Signers(steps) > 0 && m.atLeastV2(s.ctx.version)
            then Some(Coded(BecknError("SCH_INVALID_FORMAT", "BAD Request: subscriberID not set"), 400)) else None
  {
    if steps != [] {
      LocalsFail(m, w, steps[1..], s);
    }
  }

  lemma LocalsEndIn(m: Module, w: World, s: Served)
    requires s.signings == 0
    ensures RunLocals(m, w, m.responseSteps, s).error == SigningFailure(m, w, s.ctx)
  {
    if CanSign(m, s.ctx) {
      LocalsSign(m, w, m.responseSteps, s);
    } else {
      LocalsFail(m, w, m.responseSteps, s);
    }
  }

  lemma AnswerTells(m: Module, w: World, s: Served, answers: bool)
    requires s.replies == [] && s.signings == 0
    ensures var replies, failure := Answer(m, w, s, answers).replies, SigningFailure(m, w, s.ctx);
            && |replies| == 1
            && (failure.Some? ==> Tells(m, s.ctx, replies[0], failure.value))
            && (failure.None? && answers && s.ctx.responseBody != [] ==> replies[0].status == 200 && replies[0].body == s.ctx.responseBody)
            && (failure.None? && !(answers && s.ctx.responseBody != []) ==> Says(m, s.ctx, replies[0], 200, ACK, None))
  {
    LocalsKeep(m, w, m.responseSteps, s);
    LocalsEndIn(m, w, s);
    var a := RunLocals(m, w, m.responseSteps, s);
    if a.error.Some? {
      RejectTells(m, w, a.s, a.error.value);
    }
  }

  /** Where the steps succeed and the adapter answers itself: the answer of a step, if there is
      no route and there is one, or the plain ACK, with status 200; or the error that the
      signing ended in. */
  lemma AnswerIsTold(m: Module, w: World, ctx: StepContext)
    requires RunSteps(m.steps, ctx).error.None? && AnswersItself(m, w, RunSteps(m.steps, ctx).ctx)
    ensures var c, replies := RunSteps(m.steps, ctx).ctx, Serve(m, w, ctx).replies;
            && |replies| == 1
            && (match SigningFailure(m, w, c)
                case Some(e) => Tells(m, c, replies[0], e)
                case None =>
                  if c.route == None && c.responseBody != [] then replies[0].status == 200 && replies[0].body == c.responseBody
                  else Says(m, c, replies[0], 200, ACK, None))
  {
    var s := Served(RunSteps(m.steps, ctx).ctx, None, [], 0);
    AnswerTells(m, w, s, s.ctx.route == None);
  }

  /** Why a request whose steps succeeded is refused after all: an answer that is no envelope,
      nothing to serve it, a route of no known kind, or no publishing it. */
  function Refusal(m: Module, w: World, ctx: StepContext): Option<Error> {
    match ctx.route
    case Some(ToUnknown) => Some(Plain)
    case Some(ToPublisher) => (
      match w.publisher
      case Missing => Some(Plain)
      case FailsWith(e) => Some(e)
      case Publishes => None)
    case None =>
      if ctx.responseBody == [] then
        if m.hasProviderSteps then
          Some(Coded(BecknError("NET_ENTITY_NOT_FOUND", "Endpoint not found: this module serves no capability matching the request"), 404))
        else None
      else if m.isEnvelope(ctx.responseBody) then None else Some(Plain)
    case Some(_) => None
  }

  lemma RefusalIsTold(m: Module, w: World, ctx: StepContext)
    requires RunSteps(m.steps, ctx).error.None? && Refusal(m, w, RunSteps(m.steps, ctx).ctx).Some?
    ensures var c, replies := RunSteps(m.steps, ctx).ctx, Serve(m, w, ctx).replies;
            |replies| == 1 && Tells(m, c, replies[0], Refusal(m, w, c).value)
  {
    var s := Served(RunSteps(m.steps, ctx).ctx, None, [], 0);
    RejectTells(m, w, s, Refusal(m, w, s.ctx).value);
  }

  /** Of the next n signings one fails, or there is no subscriber to sign for. */
  predicate FailsToSign(m: Module, w: World, ctx: StepContext, k: nat, n: nat) {
    n > 0 && m.atLeastV2(ctx.version) && (ctx.subId == "" || FirstRefusal(w, k, k + n) < k + n)
  }

  lemma {:induction false} ForwardedFails(m: Module, w: World, steps: seq<ResponseStep>, ctx: StepContext, body: Bytes, f: Forwarding)
    requires !f.failed
    ensures RunForwarded(m, w, steps, ctx, body, f).failed <==> FailsToSign(m, w, ctx, f.signings, Signers(steps))
  {
    if steps != [] {
      var g := RunForwardedOne(m, w, steps[0], ctx, body, f);
      if !g.failed {
        ForwardedFails(m, w, steps[1..], ctx, body, g);
      }
    }
  }

  /** A forwarded request gets the upstream's own status and body, or a bare gateway error if
      there was no answer or the signing failed. */
  lemma ForwardIsTold(m: Module, w: World, ctx: StepContext)
    requires RunSteps(m.steps, ctx).error.None? && RunSteps(m.steps, ctx).ctx.route == Some(ToUrl)
    ensures var c, replies := RunSteps(m.steps, ctx).ctx, Serve(m, w, ctx).replies;
            && |replies| == 1
            && (if w.upstream.Some? && SigningFailure(m, w, c).None?
                then replies[0].status == w.upstream.value.status && replies[0].body == w.upstream.value.body
                else replies[0].status == 502 && replies[0].body == [])
  {
    var c := RunSteps(m.steps, ctx).ctx;
    if w.upstream.Some? {
      ForwardedFails(m, w, m.responseSteps, c, w.upstream.value.body, Forwarding(None, 0, false));
    }
  }

  /** An error that itself asks for a status in the two hundreds. */
  predicate AsksForSuccess(m: Module, ctx: StepContext, e: Error) {
    (e.AckNoCallback? && m.atLeastV2(ctx.contextVersion)) || (e.Coded? && 200 <= e.httpStatus < 300)
  }

  /** No other error is ever told under a status in the two hundreds. */
  lemma FailureIsNoSuccess(m: Module, ctx: StepContext, r: Reply, e: Error)
    requires Tells(m, ctx, r, e) && !AsksForSuccess(m, ctx, e)
    ensures !(200 <= r.status < 300)
  {
  }

  /** What the reply of a request may rest on. */
  datatype Ground = StepFailed(e: Error) | Refused(why: Error) | SigningFailed(with: Error) | Answers | Forwards | Crashes

  /** Every request comes to exactly one of these, and each has its reply above. */
  function GroundOf(m: Module, w: World, ctx: StepContext): Ground {
    var r := RunSteps(m.steps, ctx);
    if r.error.Some? then StepFailed(r.error.value)
    else if r.ctx.route == Some(ToUrl) then Forwards
    else if r.ctx.route == Some(ToNowhere) then Crashes
    else if Refusal(m, w, r.ctx).Some? then Refused(Refusal(m, w, r.ctx).value)
    else if SigningFailure(m, w, r.ctx).Some? then SigningFailed(SigningFailure(m, w, r.ctx).value)
    else Answers
  }

  /** A reply in the two hundreds means that every step succeeded and the request was answered
      or forwarded, or that an error asked for it. */
  lemma SuccessIsEarned(m: Module, w: World, ctx: StepContext, i: nat)
    requires i < |Serve(m, w, ctx).replies| && 200 <= Serve(m, w, ctx).replies[i].status < 300
    ensures match GroundOf(m, w, ctx)
            case StepFailed(e) => AsksForSuccess(m, RunSteps(m.steps, ctx).ctx, e)
            case Refused(e) => AsksForSuccess(m, RunSteps(m.steps, ctx).ctx, e)
            case SigningFailed(e) => AsksForSuccess(m, RunSteps(m.steps, ctx).ctx, e)
            case Answers => true
            case Forwards => w.upstream.Some? && w.upstream.value.status == Serve(m, w, ctx).replies[i].status
            case Crashes => false
  {
    var c, replies := RunSteps(m.steps, ctx).ctx, Serve(m, w, ctx).replies;
    OneReply(m, w, ctx);
    match GroundOf(m, w, ctx)
    case StepFailed(e) =>
      FailureIsTold(m, w, ctx);
      ToldWithSuccess(m, c, replies[i], e);
    case Refused(e) =>
      RefusalIsTold(m, w, ctx);
      ToldWithSuccess(m, c, replies[i], e);
    case SigningFailed(e) =>
      AnswerIsTold(m, w, ctx);
      ToldWithSuccess(m, c, replies[i], e);
    case Forwards =>
      ForwardIsTold(m, w, ctx);
    case Answers =>
    case Crashes =>
  }

  lemma ToldWithSuccess(m: Module, ctx: StepContext, r: Reply, e: Error)
    ensures Tells(m, ctx, r, e) && 200 <= r.status < 300 ==> AsksForSuccess(m, ctx, e)
  {
  }

  // ------------------------------------------------------ how steps compose

  /** Steps run in order, and none after one that fails. */
  lemma {:induction false} StepsInOrder(a: seq<Step>, b: seq<Step>, ctx: StepContext)
    ensures var first := RunSteps(a, ctx);
            RunSteps(a + b, ctx) == if first.error.Some? then first else RunSteps(b, first.ctx)
  {
    if a == [] {
      assert a + b == b;
    } else {
      StepsInOrder(a[1..], b, RunStep(a[0], ctx).ctx);
      assert (a + b)[1..] == a[1..] + b;
    }
  }

  /** What is taken back from a wrapped step, succeed or fail: the two bodies, the route, the
      subscriber, the role and the context, and nothing else. */
  lemma TakenBack(run: StepContext -> StepResult, ctx: StepContext)
    ensures var out, after := RunStep(Instrumented(run), ctx), run(ctx).ctx;
            && out.error == run(ctx).error
            && out.ctx.body == after.body && out.ctx.responseBody == after.responseBody && out.ctx.route == after.route
            && out.ctx.subId == after.subId && out.ctx.role == after.role
            && out.ctx.contextVersion == after.contextVersion && out.ctx.contextMessageId == after.contextMessageId
            && out.ctx.version == ctx.version && out.ctx.messageId == ctx.messageId && out.ctx.inbound == ctx.inbound
  {
  }
}
