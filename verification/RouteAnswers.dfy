/** Where a request goes, said by the rule that decides it: the last one that matches. */
module RouteAnswers {
  import opened Options
  import opened Strings
  import opened Router

  lemma VersionTwo(version: string)
    ensures IsV2(version) <==> HasPrefix(version, "2.")
  {
    var two := "2.";
    assert |two| == 2 && two[0] == '2' && two[1] == '.';
  }

  /** What a rule needs: a version, a known target, a domain unless it is of v2, a URL or an id
      where the target asks for one, and a URL that parses wherever one is used. */
  lemma RuleNeeds(env: Env, rule: Rule)
    ensures ValidRule(env, rule) <==>
              && rule.version != "" && rule.target != Unknown
              && (!HasPrefix(rule.version, "2.") ==> rule.domain != "")
              && (rule.target == ToUrl ==> rule.url != "")
              && (rule.target == ToPublisher ==> rule.publisherId != "")
              && (rule.target != ToPublisher && rule.url != "" ==> env.parse(rule.url).Some?)
  {
    VersionTwo(rule.version);
  }

  /** The key a request with a body is looked up under. */
  function KeyFor(req: Request): Key
    requires req.body.Carries?
  {
    Key(if HasPrefix(req.body.version, "2.") then "*" else req.body.domain, req.body.version, req.endpoint)
  }

  /** Rule i matches, and none after it does. */
  ghost predicate Decides(rules: seq<Rule>, i: nat, k: Key) {
    i < |rules| && Matches(rules[i], k) && forall j :: i < j < |rules| ==> !Matches(rules[j], k)
  }

  lemma {:induction false} DecidesScan(env: Env, rules: seq<Rule>, i: nat, k: Key)
    requires AllValid(env, rules) && Decides(rules, i, k)
    ensures Scan(env, rules, k) == Some(RouteFor(env, rules[i], k.endpoint))
  {
    if i < |rules| - 1 {
      var before := rules[..|rules| - 1];
      assert !Matches(rules[|rules| - 1], k);
      assert Decides(before, i, k);
      DecidesScan(env, before, i, k);
    }
  }

  /** The answer is a route to this URL: its base, its path with the endpoint joined on, and
      the request's query, or its own if the request has none. */
  predicate GoesTo(env: Env, r: Result<RouteView>, u: UrlView, endpoint: string, query: string) {
    && r.Ok? && r.value.target == ToUrl && r.value.url.Some?
    && r.value.url.value.base == u.base
    && r.value.url.value.path == env.join(if u.path == "" then "/" else u.path, endpoint)
    && r.value.url.value.query == (if query == "" then u.query else query)
  }

  /** The destination is the one the request names, or else the rule's own, or else none. */
  predicate GoesToParty(env: Env, r: Result<RouteView>, uri: string, rule: Rule, req: Request) {
    var named := TrimSpace(uri);
    if named != "" then
      if env.parse(named).None? then r == Err(BadUri) else GoesTo(env, r, env.parse(named).value, req.endpoint, req.query)
    else if rule.url == "" then r == Err(NoDestination)
    else env.parse(rule.url).Some? && GoesTo(env, r, env.parse(rule.url).value, req.endpoint, req.query)
  }

  /** A fixed URL, with the endpoint joined on unless the rule excludes it. */
  predicate GoesToRule(env: Env, r: Result<RouteView>, rule: Rule, req: Request) {
    && env.parse(rule.url).Some? && r.Ok? && r.value.target == ToUrl && r.value.url.Some?
    && var u := env.parse(rule.url).value;
       && r.value.url.value.base == u.base
       && r.value.url.value.path == (if rule.excludeAction then u.path else env.join(if u.path == "" then "/" else u.path, req.endpoint))
       && r.value.url.value.query == (if req.query == "" then u.query else req.query)
  }

  /** A request with a body goes where the rule that decides it says: a request for the BPP to
      the BPP's URI, one for the BAP to the BAP's, a fixed URL to that URL, and a publisher's
      to that publisher. */
  lemma AnswerIsItsRule(env: Env, rules: seq<Rule>, req: Request, r: Result<RouteView>, i: nat)
    requires AllValid(env, rules) && req.body.Carries? && Answers(env, rules, req, r) && Decides(rules, i, KeyFor(req))
    ensures match rules[i].target
            case Bpp => GoesToParty(env, r, req.body.bppUri, rules[i], req)
            case Receiver => GoesToParty(env, r, req.body.bppUri, rules[i], req)
            case Bap => GoesToParty(env, r, req.body.bapUri, rules[i], req)
            case Sender => GoesToParty(env, r, req.body.bapUri, rules[i], req)
            case ToUrl => GoesToRule(env, r, rules[i], req)
            case ToPublisher => r == Ok(RouteView(ToPublisher, rules[i].publisherId, None))
            case Unknown => false
  {
    VersionTwo(req.body.version);
    DecidesScan(env, rules, i, KeyFor(req));
    assert ValidRule(env, rules[i]) && Matches(rules[i], KeyFor(req));
    assert HasRule(rules, KeyFor(req).domain) && HasVersion(rules, KeyFor(req).domain, req.body.version);
  }

  /** The other party's URI makes no difference. */
  lemma OtherPartyIsIgnored(env: Env, rules: seq<Rule>, req: Request, r: Result<RouteView>, i: nat, other: string)
    requires AllValid(env, rules) && req.body.Carries? && Decides(rules, i, KeyFor(req))
    ensures rules[i].target in {Bpp, Receiver} ==>
              (Answers(env, rules, req, r) <==> Answers(env, rules, req.(body := req.body.(bapUri := other)), r))
    ensures rules[i].target in {Bap, Sender} ==>
              (Answers(env, rules, req, r) <==> Answers(env, rules, req.(body := req.body.(bppUri := other)), r))
  {
    VersionTwo(req.body.version);
    DecidesScan(env, rules, i, KeyFor(req));
  }

  /** Without a rule that matches there is no route, and the fault says what is missing. */
  lemma UnmatchedIsRefused(env: Env, rules: seq<Rule>, req: Request, r: Result<RouteView>)
    requires AllValid(env, rules) && req.body.Carries? && Answers(env, rules, req, r)
    requires forall i :: 0 <= i < |rules| ==> !Matches(rules[i], KeyFor(req))
    ensures r == Err(if !HasRule(rules, KeyFor(req).domain) then NoDomain
                     else if !HasVersion(rules, KeyFor(req).domain, req.body.version) then NoVersion else NoEndpoint)
  {
    VersionTwo(req.body.version);
    ScanFinds(env, rules, KeyFor(req));
  }

  /** One of any rules that match is the last. */
  lemma {:induction false} SomeoneDecides(rules: seq<Rule>, i: nat, k: Key) returns (d: nat)
    requires i < |rules| && Matches(rules[i], k)
    ensures Decides(rules, d, k)
    decreases |rules| - i
  {
    d := i;
    if j :| i < j < |rules| && Matches(rules[j], k) {
      d := SomeoneDecides(rules, j, k);
    }
  }

  /** A request without a body that gets a route gets that of a rule under the wildcard which
      lists its endpoint, decides it for its version, and fixes the destination. */
  lemma BodylessIsItsRule(env: Env, rules: seq<Rule>, req: Request, r: Result<RouteView>) returns (i: nat)
    requires AllValid(env, rules) && req.body.Empty? && Answers(env, rules, req, r) && r.Ok?
    ensures i < |rules| && Decides(rules, i, Key("*", rules[i].version, req.endpoint))
    ensures match rules[i].target
            case ToUrl => GoesToRule(env, r, rules[i], req)
            case ToPublisher => r == Ok(RouteView(ToPublisher, rules[i].publisherId, None))
            case _ => false
  {
    var v :| FitsVersion(env, rules, req, v, r);
    var k := Key(ANY, v, req.endpoint);
    ScanFinds(env, rules, k);
    var j: nat :| j < |rules| && Matches(rules[j], k);
    i := SomeoneDecides(rules, j, k);
    DecidesScan(env, rules, i, k);
    assert ValidRule(env, rules[i]);
  }
}
