/** Serving one request: the request steps, the choice of answer, the response steps, and
    the one reply that is written. What is signed has to be what is sent. */
module ResponseSigning {
  import opened Options

  type Bytes = seq<int>

  // ------------------------------------------------------------------ bodies

  datatype Status = ACK | NACK

  datatype BecknError = BecknError(code: string, message: string)

  /** The two wire envelopes; turning one into bytes is left abstract. */
  datatype Envelope =
    | V2(status: Status, messageId: string, error: Option<BecknError>)
    | PreV2(ack: Status, fault: Option<BecknError>)

  /** The kinds of error the reply tells apart. */
  datatype Error =
    | SchemaInvalid(report: BecknError)
    | Coded(report: BecknError, httpStatus: int)
    | AckNoCallback(report: BecknError, bodyStatus: Status)
    | Reporting(report: BecknError)
    | Plain

  /** `ToNowhere` is a route to a URL that has none: following it crashes. */
  datatype Route = ToUrl | ToNowhere | ToPublisher | ToUnknown

  /** What the steps work on. `contextVersion` and `contextMessageId` are the two values the
      embedded context carries; `version` and `messageId` are the fields beside it. */
  datatype StepContext = StepContext(
    body: Bytes,
    responseBody: Bytes,
    route: Option<Route>,
    subId: string,
    role: string,
    version: string,
    messageId: string,
    inbound: string,
    contextVersion: string,
    contextMessageId: string)

  datatype StepResult = StepResult(ctx: StepContext, error: Option<Error>)

  /** A request step may do anything to the context and may fail. */
  datatype Step = Bare(run: StepContext -> StepResult) | Instrumented(run: StepContext -> StepResult)

  datatype ResponseStep = SignAck | ValidateAckSign

  /** A module: its steps, and the parts of the code it uses that are left abstract. */
  datatype Module = Module(
    steps: seq<Step>,
    responseSteps: seq<ResponseStep>,
    hasProviderSteps: bool,
    atLeastV2: string -> bool,
    encode: Envelope -> Bytes,
    isEnvelope: Bytes -> bool)

  datatype Publisher = Missing | Publishes | FailsWith(error: Error)

  /** Everything outside: the error the n-th signing ends in, if any, and what publishing and
      the upstream come to. */
  datatype World = World(refusal: nat -> Option<Error>, publisher: Publisher, upstream: Option<Upstream>)

  predicate Signs(w: World, n: nat) { w.refusal(n).None? }

  datatype Upstream = Upstream(status: int, body: Bytes)

  /** A Signature header: what it was computed over and for whom. */
  datatype Signature = Signature(over: Bytes, request: string, subId: string)

  datatype Reply = Reply(status: int, body: Bytes, signature: Option<Signature>)

  /** One request being served. `header` is the Signature in the response header map,
      `signings` the signings attempted so far. */
  datatype Served = Served(ctx: StepContext, header: Option<Signature>, replies: seq<Reply>, signings: nat)

  function InternalError(ctx: StepContext): BecknError {
    BecknError("NET_INTERNAL_ERROR", "Internal server error, MessageID: " + ctx.contextMessageId)
  }

  datatype Rejection = Rejection(error: BecknError, httpStatus: int, bodyStatus: Status)

  function Classify(m: Module, ctx: StepContext, e: Error): Rejection {
    match e
    case SchemaInvalid(report) => Rejection(report, 400, NACK)
    case Coded(report, status) => Rejection(report, status, NACK)
    case AckNoCallback(report, status) =>
      if m.atLeastV2(ctx.contextVersion) then Rejection(report, 202, status) else Rejection(InternalError(ctx), 500, NACK)
    case Reporting(report) => Rejection(report, 400, NACK)
    case Plain => Rejection(InternalError(ctx), 500, NACK)
  }

  function Envelop(m: Module, ctx: StepContext, status: Status, error: Option<BecknError>): Bytes {
    m.encode(if m.atLeastV2(ctx.contextVersion) then V2(status, ctx.contextMessageId, error) else PreV2(status, error))
  }

  function NackBytes(m: Module, ctx: StepContext, e: Error): Bytes {
    var r := Classify(m, ctx, e);
    Envelop(m, ctx, r.bodyStatus, Some(r.error))
  }

  /** What is written as an ACK, from the context's values. */
  function AckBytes(m: Module, ctx: StepContext): Bytes {
    Envelop(m, ctx, ACK, None)
  }

  /** What is signed as an ACK, from the fields beside the context. */
  function BuildAckBody(m: Module, ctx: StepContext): Bytes {
    m.encode(V2(ACK, ctx.messageId, None))
  }

  // ------------------------------------------------------- the specification

  /** A wrapped step works on a copy, and only some of the copy is taken back. */
  function RunStep(step: Step, ctx: StepContext): StepResult {
    var r := step.run(ctx);
    match step
    case Bare(_) => r
    case Instrumented(_) =>
      StepResult(ctx.(body := r.ctx.body, responseBody := r.ctx.responseBody, route := r.ctx.route,
                      subId := r.ctx.subId, role := r.ctx.role,
                      contextVersion := r.ctx.contextVersion, contextMessageId := r.ctx.contextMessageId),
                 r.error)
  }

  /** The request steps in order, up to the first that fails. */
  function RunSteps(steps: seq<Step>, ctx: StepContext): StepResult {
    if steps == [] then StepResult(ctx, None)
    else
      var r := RunStep(steps[0], ctx);
      if r.error.Some? then r else RunSteps(steps[1..], r.ctx)
  }

  datatype Attempt = Attempt(s: Served, error: Option<Error>)

  /** Signs a body into the response headers, which the world may refuse. */
  function SignBody(w: World, s: Served, body: Bytes): Attempt {
    if Signs(w, s.signings) then
      Attempt(s.(header := Some(Signature(body, s.ctx.inbound, s.ctx.subId)), signings := s.signings + 1), None)
    else
      Attempt(s.(signings := s.signings + 1), w.refusal(s.signings))
  }

  predicate SignsNacks(m: Module, ctx: StepContext) {
    SignAck in m.responseSteps && m.atLeastV2(ctx.version) && ctx.subId != ""
  }

  /** A rejection: signed if it can be, and written either way. */
  function Reject(m: Module, w: World, s: Served, e: Error): Served {
    var signed := if SignsNacks(m, s.ctx) then SignBody(w, s, NackBytes(m, s.ctx, e)).s else s;
    Write(signed, Classify(m, s.ctx, e).httpStatus, NackBytes(m, s.ctx, e))
  }

  function Write(s: Served, status: int, body: Bytes): Served {
    s.(replies := s.replies + [Reply(status, body, s.header)])
  }

  const NO_SUBSCRIBER := Coded(BecknError("SCH_INVALID_FORMAT", "BAD Request: subscriberID not set"), 400)

  /** The body the ack signer takes for the one that will be written. */
  function ExpectedBody(m: Module, ctx: StepContext): Bytes {
    if ctx.responseBody == [] then BuildAckBody(m, ctx) else ctx.responseBody
  }

  function RunLocal(m: Module, w: World, step: ResponseStep, s: Served): Attempt {
    match step
    case ValidateAckSign => Attempt(s, None)
    case SignAck =>
      if !m.atLeastV2(s.ctx.version) then Attempt(s, None)
      else if s.ctx.subId == "" then Attempt(s, Some(NO_SUBSCRIBER))
      else SignBody(w, s, ExpectedBody(m, s.ctx))
  }

  /** The response steps before a reply of the adapter's own. */
  function RunLocals(m: Module, w: World, steps: seq<ResponseStep>, s: Served): Attempt {
    if steps == [] then Attempt(s, None)
    else
      var a := RunLocal(m, w, steps[0], s);
      if a.error.Some? then a else RunLocals(m, w, steps[1..], a.s)
  }

  datatype Forwarding = Forwarding(header: Option<Signature>, signings: nat, failed: bool)

  /** A response step over an upstream's answer: it signs into that answer's headers. */
  function RunForwardedOne(m: Module, w: World, step: ResponseStep, ctx: StepContext, body: Bytes, f: Forwarding): Forwarding {
    match step
    case ValidateAckSign => f
    case SignAck =>
      if !m.atLeastV2(ctx.version) then f
      else if ctx.subId == "" then f.(failed := true)
      else if Signs(w, f.signings) then f.(header := Some(Signature(body, ctx.inbound, ctx.subId)), signings := f.signings + 1)
      else f.(failed := true, signings := f.signings + 1)
  }

  function RunForwarded(m: Module, w: World, steps: seq<ResponseStep>, ctx: StepContext, body: Bytes, f: Forwarding): Forwarding {
    if steps == [] || f.failed then f
    else RunForwarded(m, w, steps[1..], ctx, body, RunForwardedOne(m, w, steps[0], ctx, body, f))
  }

  const BAD_GATEWAY := 502

  function Proxy(m: Module, w: World, s: Served): Served {
    match w.upstream
    case None => Write(s, BAD_GATEWAY, [])
    case Some(answer) =>
      var f := RunForwarded(m, w, m.responseSteps, s.ctx, answer.body, Forwarding(None, s.signings, false));
      if f.failed then Write(s.(signings := f.signings), BAD_GATEWAY, [])
      else s.(signings := f.signings,
              replies := s.replies + [Reply(answer.status, answer.body, if s.header.Some? then s.header else f.header)])
  }

  /** A reply of the adapter's own, after the response steps: an ACK, or a step's answer
      where answers count. */
  function Answer(m: Module, w: World, s: Served, answers: bool): Served {
    var a := RunLocals(m, w, m.responseSteps, s);
    if a.error.Some? then Reject(m, w, a.s, a.error.value)
    else if answers && a.s.ctx.responseBody != [] then Write(a.s, 200, a.s.ctx.responseBody)
    else Write(a.s, 200, AckBytes(m, a.s.ctx))
  }

  const UNSERVED := Coded(BecknError("NET_ENTITY_NOT_FOUND", "Endpoint not found: this module serves no capability matching the request"), 404)

  function Finish(m: Module, w: World, s: Served): Served {
    match s.ctx.route
    case Some(ToUrl) => Proxy(m, w, s)
    case Some(ToNowhere) => s
    case Some(ToPublisher) => (
      match w.publisher
      case Missing => Reject(m, w, s, Plain)
      case FailsWith(e) => Reject(m, w, s, e)
      case Publishes => Answer(m, w, s, false))
    case Some(ToUnknown) => Reject(m, w, s, Plain)
    case None =>
      if m.hasProviderSteps && s.ctx.responseBody == [] then Reject(m, w, s, UNSERVED)
      else if s.ctx.responseBody != [] && !m.isEnvelope(s.ctx.responseBody) then Reject(m, w, s, Plain)
      else Answer(m, w, s, true)
  }

  function Serve(m: Module, w: World, ctx: StepContext): Served {
    var r := RunSteps(m.steps, ctx);
    var s := Served(r.ctx, None, [], 0);
    if r.error.Some? then Reject(m, w, s, r.error.value) else Finish(m, w, s)
  }

  // ------------------------------------------------------------ the handler

  /** The handler at work on one request: the step context, the response headers and what
      has been written are updated in place. */
  class Exchange {
    const m: Module
    const w: World
    var ctx: StepContext
    var header: Option<Signature>
    var replies: seq<Reply>
    var signings: nat

    constructor (m: Module, w: World, ctx: StepContext)
      ensures this.m == m && this.w == w
      ensures Now() == Served(ctx, None, [], 0)
    {
      this.m, this.w, this.ctx, header, replies, signings := m, w, ctx, None, [], 0;
    }

    ghost function Now(): Served
      reads this
    {
      Served(ctx, header, replies, signings)
    }

    method SignBodyAndSetHeader(body: Bytes) returns (error: Option<Error>)
      modifies this
      ensures Attempt(Now(), error) == SignBody(w, old(Now()), body)
    {
      error := w.refusal(signings);
      signings := signings + 1;
      if error.Some? {
        return;
      }
      header := Some(Signature(body, ctx.inbound, ctx.subId));
    }

    method WriteReply(status: int, body: Bytes)
      modifies this
      ensures Now() == Write(old(Now()), status, body)
    {
      replies := replies + [Reply(status, body, header)];
    }

    /** Signs the rejection first and writes it next, each computing its bytes anew. */
    method SignAndSendNack(e: Error)
      modifies this
      ensures Now() == Reject(m, w, old(Now()), e)
    {
      if SignsNacks(m, ctx) {
        var refused := SignBodyAndSetHeader(NackBytes(m, ctx, e));
      }
      WriteReply(Classify(m, ctx, e).httpStatus, NackBytes(m, ctx, e));
    }

    method RunRequestSteps() returns (error: Option<Error>)
      modifies this
      ensures var r := RunSteps(m.steps, old(ctx));
              Now() == old(Now()).(ctx := r.ctx) && error == r.error
    {
      for i := 0 to |m.steps|
        invariant RunSteps(m.steps[i..], ctx) == RunSteps(m.steps, old(ctx))
        invariant Now() == old(Now()).(ctx := ctx)
      {
        var r := RunStep(m.steps[i], ctx);
        assert m.steps[i..][1..] == m.steps[i + 1..];
        ctx := r.ctx;
        if r.error.Some? {
          return r.error;
        }
      }
      return None;
    }

    method RunOnResponse(step: ResponseStep) returns (error: Option<Error>)
      modifies this
      ensures Attempt(Now(), error) == RunLocal(m, w, step, old(Now()))
    {
      if step == ValidateAckSign || !m.atLeastV2(ctx.version) {
        return None;
      }
      if ctx.subId == "" {
        return Some(NO_SUBSCRIBER);
      }
      error := SignBodyAndSetHeader(ExpectedBody(m, ctx));
    }

    method RunResponseSteps() returns (error: Option<Error>)
      modifies this
      ensures Attempt(Now(), error) == RunLocals(m, w, m.responseSteps, old(Now()))
    {
      for i := 0 to |m.responseSteps|
        invariant RunLocals(m, w, m.responseSteps[i..], Now()) == RunLocals(m, w, m.responseSteps, old(Now()))
      {
        assert m.responseSteps[i..][1..] == m.responseSteps[i + 1..];
        error := RunOnResponse(m.responseSteps[i]);
        if error.Some? {
          return error;
        }
      }
      return None;
    }

    method SendAnswer(answers: bool)
      modifies this
      ensures Now() == Answer(m, w, old(Now()), answers)
    {
      var error := RunResponseSteps();
      if error.Some? {
        SignAndSendNack(error.value);
      } else if answers && ctx.responseBody != [] {
        WriteReply(200, ctx.responseBody);
      } else {
        WriteReply(200, AckBytes(m, ctx));
      }
    }

    method Forward()
      modifies this
      ensures Now() == Proxy(m, w, old(Now()))
    {
      if w.upstream.None? {
        WriteReply(BAD_GATEWAY, []);
        return;
      }
      var answer := w.upstream.value;
      var f := Forwarding(None, signings, false);
      for i := 0 to |m.responseSteps|
        invariant RunForwarded(m, w, m.responseSteps[i..], ctx, answer.body, f)
               == RunForwarded(m, w, m.responseSteps, ctx, answer.body, Forwarding(None, signings, false))
      {
        assert m.responseSteps[i..][1..] == m.responseSteps[i + 1..];
        assert m.responseSteps[i..][0] == m.responseSteps[i];
        if f.failed {
          break;
        }
        if m.responseSteps[i] == SignAck && m.atLeastV2(ctx.version) {
          if ctx.subId == "" {
            f := f.(failed := true);
          } else if Signs(w, f.signings) {
            f := f.(header := Some(Signature(answer.body, ctx.inbound, ctx.subId)), signings := f.signings + 1);
          } else {
            f := f.(failed := true, signings := f.signings + 1);
          }
        }
      }
      signings := f.signings;
      if f.failed {
        WriteReply(BAD_GATEWAY, []);
      } else {
        replies := replies + [Reply(answer.status, answer.body, if header.Some? then header else f.header)];
      }
    }

    method RouteRequest(route: Route)
      requires ctx.route == Some(route)
      modifies this
      ensures Now() == Finish(m, w, old(Now()))
    {
      match route
      case ToUrl => Forward();
      case ToNowhere =>
      case ToUnknown => SignAndSendNack(Plain);
      case ToPublisher =>
        match w.publisher
        case Missing => SignAndSendNack(Plain);
        case FailsWith(e) => SignAndSendNack(e);
        case Publishes => SendAnswer(false);
    }

    method ServeRequest()
      requires Now() == Served(ctx, None, [], 0)
      modifies this
      ensures Now() == Serve(m, w, old(ctx))
    {
      var error := RunRequestSteps();
      if error.Some? {
        SignAndSendNack(error.value);
        return;
      }
      if ctx.route.Some? {
        RouteRequest(ctx.route.value);
      } else if m.hasProviderSteps && ctx.responseBody == [] {
        SignAndSendNack(UNSERVED);
      } else if ctx.responseBody != [] && !m.isEnvelope(ctx.responseBody) {
        SignAndSendNack(Plain);
      } else {
        SendAnswer(true);
      }
    }
  }

  // ------------------------------------------------------ one reply, always

  lemma {:induction false} LocalsKeep(m: Module, w: World, steps: seq<ResponseStep>, s: Served)
    ensures var a := RunLocals(m, w, steps, s);
            a.s.ctx == s.ctx && a.s.replies == s.replies
  {
    if steps != [] {
      LocalsKeep(m, w, steps[1..], RunLocal(m, w, steps[0], s).s);
    }
  }

  /** The steps succeed and leave a route to a URL that has none. */
  predicate LeadsNowhere(m: Module, ctx: StepContext) {
    RunSteps(m.steps, ctx).error.None? && RunSteps(m.steps, ctx).ctx.route == Some(ToNowhere)
  }

  /** Whatever the steps do and whatever fails, exactly one reply is written, unless the route
      leads nowhere: then there is none. */
  lemma OneReply(m: Module, w: World, ctx: StepContext)
    ensures |Serve(m, w, ctx).replies| == if LeadsNowhere(m, ctx) then 0 else 1
  {
    var r := RunSteps(m.steps, ctx);
    LocalsKeep(m, w, m.responseSteps, Served(r.ctx, None, [], 0));
  }

  // --------------------------------------------- what is signed is what is sent

  predicate Honest(r: Reply) {
    r.signature.Some? ==> r.signature.value.over == r.body
  }

  /** Every signature that went out is over the bytes it went out with. */
  predicate HonestRun(m: Module, w: World, ctx: StepContext) {
    AllHonest(Serve(m, w, ctx).replies)
  }

  predicate AllHonest(replies: seq<Reply>) {
    forall i :: 0 <= i < |replies| ==> Honest(replies[i])
  }

  function Signers(steps: seq<ResponseStep>): nat {
    if steps == [] then 0 else (if steps[0] == SignAck then 1 else 0) + Signers(steps[1..])
  }

  predicate CanSign(m: Module, ctx: StepContext) {
    m.atLeastV2(ctx.version) && ctx.subId != ""
  }

  function Over(ctx: StepContext, body: Bytes): Option<Signature> {
    Some(Signature(body, ctx.inbound, ctx.subId))
  }

  lemma SignersCount(steps: seq<ResponseStep>)
    ensures Signers(steps) == 0 <==> SignAck !in steps
  {
    if steps != [] {
      assert steps == [steps[0]] + steps[1..];
    }
  }

  /** The first of the signings from k up to n that is refused, or n. */
  function FirstRefusal(w: World, k: nat, n: nat): (f: nat)
    requires k <= n
    ensures k <= f <= n && (f < n ==> !Signs(w, f)) && forall i :: k <= i < f ==> Signs(w, i)
    decreases n - k
  {
    if k == n || !Signs(w, k) then k else FirstRefusal(w, k + 1, n)
  }

  /** Where signing is possible, the response steps sign the expected body until the first
      refusal, and what an earlier one signed stays in the headers. */
  lemma {:induction false} LocalsSign(m: Module, w: World, steps: seq<ResponseStep>, s: Served)
    requires CanSign(m, s.ctx)
    ensures var a, end := RunLocals(m, w, steps, s), s.signings + Signers(steps);
            var f := FirstRefusal(w, s.signings, end);
            && a.s.header == (if f == s.signings then s.header else Over(s.ctx, ExpectedBody(m, s.ctx)))
            && (if f == end then a.error == None && a.s.signings == end else a.error == w.refusal(f) && a.s.signings == f + 1)
  {
    if steps != [] {
      var a := RunLocal(m, w, steps[0], s);
      if a.error.None? {
        LocalsSign(m, w, steps[1..], a.s);
      }
    }
  }

  /** Where it is not, they sign nothing, and fail only for want of a subscriber. */
  lemma {:induction false} LocalsIdle(m: Module, w: World, steps: seq<ResponseStep>, s: Served)
    requires !CanSign(m, s.ctx)
    ensures RunLocals(m, w, steps, s).s == s
  {
    if steps != [] {
      LocalsIdle(m, w, steps[1..], s);
    }
  }

  lemma {:induction false} ForwardedSign(m: Module, w: World, steps: seq<ResponseStep>, ctx: StepContext, body: Bytes, f: Forwarding)
    ensures var g := RunForwarded(m, w, steps, ctx, body, f);
            && (g.header == f.header || g.header == Over(ctx, body))
            && (!g.failed && Signers(steps) > 0 && CanSign(m, ctx) ==> g.header == Over(ctx, body))
            && (!f.failed && CanSign(m, ctx) && (forall n :: Signs(w, n)) ==> !g.failed)
  {
    if steps != [] && !f.failed {
      ForwardedSign(m, w, steps[1..], ctx, body, RunForwardedOne(m, w, steps[0], ctx, body, f));
    }
  }

  /** The request is answered by the adapter itself: published, or without a route. */
  predicate AnswersItself(m: Module, w: World, ctx: StepContext) {
    match ctx.route
    case Some(ToPublisher) => w.publisher == Publishes
    case None => if ctx.responseBody == [] then !m.hasProviderSteps else m.isEnvelope(ctx.responseBody)
    case Some(_) => false
  }

  /** What it then writes: a step's answer only where there is no route. */
  function AnswerBytes(m: Module, ctx: StepContext, answers: bool): Bytes {
    if answers && ctx.responseBody != [] then ctx.responseBody else AckBytes(m, ctx)
  }

  /** The signings before an answer of the adapter's own come out so that the reply carries a
      signature over something else. Either all succeed, over a body that is not the one
      written; or a later one is refused, and so is the signing of the rejection: the
      rejection then goes out under the signature of what it replaced. */
  predicate Missigns(m: Module, w: World, ctx: StepContext, answers: bool) {
    var n := Signers(m.responseSteps);
    var f := FirstRefusal(w, 0, n);
    && n > 0 && CanSign(m, ctx)
    && if f == n then ExpectedBody(m, ctx) != AnswerBytes(m, ctx, answers)
       else f > 0 && !Signs(w, f + 1) && ExpectedBody(m, ctx) != NackBytes(m, ctx, w.refusal(f).value)
  }

  lemma RejectIsHonest(m: Module, w: World, s: Served, e: Error)
    requires s.replies == [] && s.header == None
    ensures Honest(Reject(m, w, s, e).replies[0])
  {
  }

  lemma ProxyIsHonest(m: Module, w: World, s: Served)
    requires s.replies == [] && s.header == None
    ensures Honest(Proxy(m, w, s).replies[0])
  {
    if w.upstream.Some? {
      ForwardedSign(m, w, m.responseSteps, s.ctx, w.upstream.value.body, Forwarding(None, s.signings, false));
    }
  }

  lemma AnswerIsHonest(m: Module, w: World, s: Served, answers: bool)
    requires s.replies == [] && s.header == None && s.signings == 0
    ensures |Answer(m, w, s, answers).replies| == 1
    ensures Honest(Answer(m, w, s, answers).replies[0]) <==> !Missigns(m, w, s.ctx, answers)
  {
    LocalsKeep(m, w, m.responseSteps, s);
    SignersCount(m.responseSteps);
    if CanSign(m, s.ctx) {
      LocalsSign(m, w, m.responseSteps, s);
    } else {
      LocalsIdle(m, w, m.responseSteps, s);
    }
  }

  /** The steps succeed, the adapter answers itself, and its signings come out wrong. */
  predicate Misled(m: Module, w: World, ctx: StepContext) {
    var r := RunSteps(m.steps, ctx);
    r.error.None? && AnswersItself(m, w, r.ctx) && Missigns(m, w, r.ctx, r.ctx.route == None)
  }

  lemma FinishIsHonest(m: Module, w: World, s: Served)
    requires s.replies == [] && s.header == None && s.signings == 0
    ensures var replies := Finish(m, w, s).replies;
            && |replies| == (if s.ctx.route == Some(ToNowhere) then 0 else 1)
            && (AllHonest(replies) <==> !(AnswersItself(m, w, s.ctx) && Missigns(m, w, s.ctx, s.ctx.route == None)))
  {
    match s.ctx.route
    case Some(ToUrl) => ProxyIsHonest(m, w, s);
    case Some(ToNowhere) =>
    case Some(ToUnknown) => RejectIsHonest(m, w, s, Plain);
    case Some(ToPublisher) => {
      match w.publisher
      case Missing => RejectIsHonest(m, w, s, Plain);
      case FailsWith(e) => RejectIsHonest(m, w, s, e);
      case Publishes => AnswerIsHonest(m, w, s, false);
    }
    case None =>
      if m.hasProviderSteps && s.ctx.responseBody == [] {
        RejectIsHonest(m, w, s, UNSERVED);
      } else if s.ctx.responseBody != [] && !m.isEnvelope(s.ctx.responseBody) {
        RejectIsHonest(m, w, s, Plain);
      } else {
        AnswerIsHonest(m, w, s, true);
      }
  }

  /** For every list of request and response steps, bare or wrapped, and every success or
      failure of each: what was signed is what was sent if and only if the run is not misled. */
  lemma SignedIsSent(m: Module, w: World, ctx: StepContext)
    ensures HonestRun(m, w, ctx) <==> !Misled(m, w, ctx)
  {
    var r := RunSteps(m.steps, ctx);
    var s := Served(r.ctx, None, [], 0);
    if r.error.Some? {
      RejectIsHonest(m, w, s, r.error.value);
    } else {
      FinishIsHonest(m, w, s);
    }
  }

  // ------------------------------------------- with signAck listed at most once

  /** A step answered although the request was then published: the answer is what gets
      signed, the ACK is what gets written. */
  predicate SignsTheWrongBody(m: Module, w: World, ctx: StepContext) {
    var r := RunSteps(m.steps, ctx);
    && r.error.None? && r.ctx.route == Some(ToPublisher) && w.publisher == Publishes
    && SignAck in m.responseSteps && CanSign(m, r.ctx) && Signs(w, 0)
    && r.ctx.responseBody != [] && r.ctx.responseBody != AckBytes(m, r.ctx)
  }

  /** The ACK is written from the context's values and signed from the fields beside it, and
      the steps have moved the one away from the other. */
  predicate SignsAnotherAck(m: Module, w: World, ctx: StepContext) {
    var r := RunSteps(m.steps, ctx);
    && r.error.None? && r.ctx.responseBody == [] && AnswersItself(m, w, r.ctx)
    && SignAck in m.responseSteps && CanSign(m, r.ctx) && Signs(w, 0)
    && BuildAckBody(m, r.ctx) != AckBytes(m, r.ctx)
  }

  /** With signAck listed at most once, those are the only two ways to go wrong. */
  lemma SignedOnceIsSent(m: Module, w: World, ctx: StepContext)
    requires Signers(m.responseSteps) <= 1
    ensures HonestRun(m, w, ctx) <==> !SignsTheWrongBody(m, w, ctx) && !SignsAnotherAck(m, w, ctx)
  {
    SignedIsSent(m, w, ctx);
    SignersCount(m.responseSteps);
    assert FirstRefusal(w, 0, 1) == if Signs(w, 0) then 1 else 0;
  }

  /** The fields beside the context say what the context's values say, as they do when the
      context is first built. */
  predicate Agrees(ctx: StepContext) {
    ctx.version == ctx.contextVersion && ctx.messageId == ctx.contextMessageId
  }

  ghost predicate AllWrapped(steps: seq<Step>) {
    forall i :: 0 <= i < |steps| ==> steps[i].Instrumented?
  }

  /** Wrapping keeps the fields: what a step changed of them on its copy is not taken back. The
      context's values are. */
  lemma {:induction false} WrappedKeepFields(steps: seq<Step>, ctx: StepContext)
    requires AllWrapped(steps)
    ensures var out := RunSteps(steps, ctx).ctx;
            out.version == ctx.version && out.messageId == ctx.messageId && out.inbound == ctx.inbound
  {
    if steps != [] {
      WrappedKeepFields(steps[1..], RunStep(steps[0], ctx).ctx);
    }
  }

  /** A step that leaves the context's two values alone. */
  ghost predicate Keeps(step: Step) {
    forall c :: step.run(c).ctx.contextVersion == c.contextVersion && step.run(c).ctx.contextMessageId == c.contextMessageId
  }

  ghost predicate AllKeep(steps: seq<Step>) {
    forall i :: 0 <= i < |steps| ==> Keeps(steps[i])
  }

  lemma {:induction false} StepsKeepValues(steps: seq<Step>, ctx: StepContext)
    requires AllKeep(steps)
    ensures var out := RunSteps(steps, ctx).ctx;
            out.contextVersion == ctx.contextVersion && out.contextMessageId == ctx.contextMessageId
  {
    if steps != [] {
      assert Keeps(steps[0]);
      StepsKeepValues(steps[1..], RunStep(steps[0], ctx).ctx);
    }
  }

  /** With wrapped steps that leave the context's values alone, one way is left. */
  lemma SignedBySteadySteps(m: Module, w: World, ctx: StepContext)
    requires Signers(m.responseSteps) <= 1 && AllWrapped(m.steps) && AllKeep(m.steps) && Agrees(ctx)
    ensures HonestRun(m, w, ctx) <==> !SignsTheWrongBody(m, w, ctx)
  {
    WrappedKeepFields(m.steps, ctx);
    StepsKeepValues(m.steps, ctx);
    SignedOnceIsSent(m, w, ctx);
  }

  // ------------------------------------------------------ the ways to go wrong

  /** The request reaches the ACK the adapter writes itself, and could be signed. */
  predicate ReachesAck(m: Module, ctx: StepContext) {
    var r := RunSteps(m.steps, ctx);
    && r.error.None? && r.ctx.route == None && r.ctx.responseBody == [] && !m.hasProviderSteps
    && CanSign(m, r.ctx)
  }

  ghost predicate AlwaysHonest(m: Module, ctx: StepContext) {
    forall w :: HonestRun(m, w, ctx)
  }

  /** A request that reaches the ACK is safe in every world if and only if signAck is not
      listed, or is listed once and the ACK signed is the ACK written. With two, there is a
      world whose second and third signings are refused, and the NACK goes out under the
      signature of the ACK it replaced. */
  lemma OnceIsExact(m: Module, ctx: StepContext)
    requires ReachesAck(m, ctx)
    requires BuildAckBody(m, RunSteps(m.steps, ctx).ctx) != NackBytes(m, RunSteps(m.steps, ctx).ctx, Plain)
    ensures var n, r := Signers(m.responseSteps), RunSteps(m.steps, ctx);
            AlwaysHonest(m, ctx) <==> n == 0 || (n == 1 && BuildAckBody(m, r.ctx) == AckBytes(m, r.ctx))
  {
    var n, r := Signers(m.responseSteps), RunSteps(m.steps, ctx);
    SignersCount(m.responseSteps);
    if n >= 2 {
      var w := World((k: nat) => if k == 0 then None else Some(Plain), Missing, None);
      SignedIsSent(m, w, ctx);
      assert FirstRefusal(w, 0, n) == FirstRefusal(w, 1, n) == 1;
      assert !HonestRun(m, w, ctx);
    } else {
      var w := World((k: nat) => None, Missing, None);
      SignedOnceIsSent(m, w, ctx);
      assert n == 1 && BuildAckBody(m, r.ctx) != AckBytes(m, r.ctx) ==> !HonestRun(m, w, ctx);
      forall w ensures n == 0 || BuildAckBody(m, r.ctx) == AckBytes(m, r.ctx) ==> HonestRun(m, w, ctx) {
        SignedOnceIsSent(m, w, ctx);
      }
    }
  }

  lemma OneStep(step: Step, ctx: StepContext)
    ensures RunSteps([step], ctx) == RunStep(step, ctx)
  {
    assert [step][1..] == [];
  }

  /** A module with one step and one signer, before an ACK of its own. */
  ghost predicate AcksAfter(m: Module, w: World, step: Step, ctx: StepContext) {
    && m.steps == [step] && m.responseSteps == [SignAck] && !m.hasProviderSteps
    && Agrees(ctx) && ctx.route == None && ctx.responseBody == [] && CanSign(m, ctx) && Signs(w, 0)
  }

  /** Renames the message in the field. */
  function Renames(id: string): StepContext -> StepResult {
    (c: StepContext) => StepResult(c.(messageId := id), None)
  }

  /** Renames the message in the context. */
  function RenamesInContext(id: string): StepContext -> StepResult {
    (c: StepContext) => StepResult(c.(contextMessageId := id), None)
  }

  predicate Differ(m: Module, id: string, other: string) {
    m.encode(V2(ACK, id, None)) != m.encode(V2(ACK, other, None))
  }

  lemma OneSigner()
    ensures Signers([SignAck]) == 1
  {
    assert [SignAck][1..] == [];
  }

  /** A bare step that renames the message in its field makes the signature fit another ACK. */
  lemma BareRenameIsMissigned(m: Module, w: World, ctx: StepContext, id: string)
    requires AcksAfter(m, w, Bare(Renames(id)), ctx) && Differ(m, id, ctx.messageId)
    ensures !HonestRun(m, w, ctx)
  {
    OneStep(m.steps[0], ctx);
    OneSigner();
    SignedOnceIsSent(m, w, ctx);
  }

  /** The same step wrapped does not. */
  lemma WrappedRenameIsSafe(m: Module, w: World, ctx: StepContext, id: string)
    requires AcksAfter(m, w, Instrumented(Renames(id)), ctx)
    ensures HonestRun(m, w, ctx)
  {
    OneStep(m.steps[0], ctx);
    OneSigner();
    SignedOnceIsSent(m, w, ctx);
  }

  /** But a wrapped step that renames it in the context does: the context is taken back whole. */
  lemma ContextRenameIsMissigned(m: Module, w: World, ctx: StepContext, id: string)
    requires AcksAfter(m, w, Instrumented(RenamesInContext(id)), ctx) && Differ(m, id, ctx.messageId)
    ensures !HonestRun(m, w, ctx) && !SignsTheWrongBody(m, w, ctx)
  {
    OneStep(m.steps[0], ctx);
    OneSigner();
    SignedOnceIsSent(m, w, ctx);
  }

  /** Answers the request and routes it to the publisher as well. */
  function AnswersAndPublishes(answer: Bytes): StepContext -> StepResult {
    (c: StepContext) => StepResult(c.(responseBody := answer, route := Some(ToPublisher)), None)
  }

  /** One steady wrapped step that answers what is then published is enough as well. */
  lemma PublishedAnswerIsMissigned(m: Module, w: World, ctx: StepContext, answer: Bytes)
    requires m.steps == [Instrumented(AnswersAndPublishes(answer))] && m.responseSteps == [SignAck]
    requires CanSign(m, ctx) && Signs(w, 0) && w.publisher == Publishes
    requires answer != [] && answer != AckBytes(m, ctx)
    ensures !HonestRun(m, w, ctx)
  {
    OneStep(m.steps[0], ctx);
    OneSigner();
    SignedOnceIsSent(m, w, ctx);
  }

  // ------------------------------------------------------ every reply is signed

  predicate SignedFor(r: Reply, ctx: StepContext) {
    r.signature.Some? && r.signature.value.request == ctx.inbound && r.signature.value.subId == ctx.subId
  }

  ghost predicate AlwaysSigns(m: Module, w: World, ctx: StepContext) {
    SignAck in m.responseSteps && CanSign(m, ctx) && forall n :: Signs(w, n)
  }

  lemma RejectIsSigned(m: Module, w: World, s: Served, e: Error)
    requires s.replies == [] && AlwaysSigns(m, w, s.ctx)
    ensures SignedFor(Reject(m, w, s, e).replies[0], s.ctx)
  {
  }

  lemma AnswerIsSigned(m: Module, w: World, s: Served, answers: bool)
    requires s.replies == [] && AlwaysSigns(m, w, s.ctx)
    ensures |Answer(m, w, s, answers).replies| == 1 && SignedFor(Answer(m, w, s, answers).replies[0], s.ctx)
  {
    SignersCount(m.responseSteps);
    LocalsKeep(m, w, m.responseSteps, s);
    LocalsSign(m, w, m.responseSteps, s);
  }

  lemma ProxyIsSigned(m: Module, w: World, s: Served)
    requires s.replies == [] && s.header == None && AlwaysSigns(m, w, s.ctx)
    ensures var reply := Proxy(m, w, s).replies[0];
            if w.upstream.Some? then SignedFor(reply, s.ctx) else reply.signature.None?
  {
    SignersCount(m.responseSteps);
    if w.upstream.Some? {
      ForwardedSign(m, w, m.responseSteps, s.ctx, w.upstream.value.body, Forwarding(None, s.signings, false));
    }
  }

  predicate Unanswered(w: World, ctx: StepContext) {
    ctx.route == Some(ToUrl) && w.upstream == None
  }

  lemma FinishIsSigned(m: Module, w: World, s: Served)
    requires s.replies == [] && s.header == None && AlwaysSigns(m, w, s.ctx)
    ensures var replies := Finish(m, w, s).replies;
            forall i :: 0 <= i < |replies| ==>
              if Unanswered(w, s.ctx) then replies[i].signature.None? else SignedFor(replies[i], s.ctx)
  {
    match s.ctx.route
    case Some(ToUrl) => ProxyIsSigned(m, w, s);
    case Some(ToNowhere) =>
    case Some(ToUnknown) => RejectIsSigned(m, w, s, Plain);
    case Some(ToPublisher) => {
      match w.publisher
      case Missing => RejectIsSigned(m, w, s, Plain);
      case FailsWith(e) => RejectIsSigned(m, w, s, e);
      case Publishes => AnswerIsSigned(m, w, s, false);
    }
    case None =>
      if m.hasProviderSteps && s.ctx.responseBody == [] {
        RejectIsSigned(m, w, s, UNSERVED);
      } else if s.ctx.responseBody != [] && !m.isEnvelope(s.ctx.responseBody) {
        RejectIsSigned(m, w, s, Plain);
      } else {
        AnswerIsSigned(m, w, s, true);
      }
  }

  /** Where signAck is listed, the version is signed and no signing is refused, every reply is
      signed for the subscriber, and if the steps are wrapped over the request's own signature;
      except exactly the gateway error written where a request was forwarded and no answer
      came. */
  lemma EveryReplyIsSigned(m: Module, w: World, ctx: StepContext)
    requires AlwaysSigns(m, w, RunSteps(m.steps, ctx).ctx)
    ensures var r, replies := RunSteps(m.steps, ctx), Serve(m, w, ctx).replies;
            forall i :: 0 <= i < |replies| ==>
              if r.error.None? && Unanswered(w, r.ctx) then replies[i].signature.None? else SignedFor(replies[i], r.ctx)
    ensures AllWrapped(m.steps) ==> RunSteps(m.steps, ctx).ctx.inbound == ctx.inbound
  {
    var r := RunSteps(m.steps, ctx);
    var s := Served(r.ctx, None, [], 0);
    if AllWrapped(m.steps) {
      WrappedKeepFields(m.steps, ctx);
    }
    if r.error.Some? {
      RejectIsSigned(m, w, s, r.error.value);
    } else {
      FinishIsSigned(m, w, s);
    }
  }
}
