/** The routing table: rules loaded into a map by domain, version and endpoint, and requests
    routed through it without ever changing the URLs it holds. */
module Router {
  import opened Options
  import opened Strings

  datatype Target = Unknown | ToUrl | ToPublisher | Bpp | Bap | Receiver | Sender

  /** A parsed URL as far as routing looks into it. */
  datatype UrlView = UrlView(base: string, path: string, query: string)

  datatype RouteView = RouteView(target: Target, publisherId: string, url: Option<UrlView>)

  datatype Rule = Rule(domain: string, version: string, target: Target, url: string, publisherId: string,
                       excludeAction: bool, endpoints: seq<string>)

  /** URL parsing and path joining, left abstract. */
  datatype Env = Env(parse: string -> Option<UrlView>, join: (string, string) -> string)

  predicate IsV2(version: string) {
    |version| >= 2 && version[0] == '2' && version[1] == '.'
  }

  const ANY := "*"

  function DomainOf(domain: string, version: string): string {
    if IsV2(version) then ANY else domain
  }

  function Joined(env: Env, u: UrlView, endpoint: string): UrlView {
    u.(path := env.join(if u.path == "" then "/" else u.path, endpoint))
  }

  predicate ValidRule(env: Env, rule: Rule) {
    && rule.version != "" && rule.target != Unknown
    && (IsV2(rule.version) || rule.domain != "")
    && match rule.target
       case ToUrl => rule.url != "" && env.parse(rule.url).Some?
       case ToPublisher => rule.publisherId != ""
       case _ => rule.url != "" ==> env.parse(rule.url).Some?
  }

  /** What one rule says of one of its endpoints. */
  function RouteFor(env: Env, rule: Rule, endpoint: string): RouteView
    requires ValidRule(env, rule)
  {
    if rule.target == ToPublisher then RouteView(ToPublisher, rule.publisherId, None)
    else if rule.url == "" then RouteView(rule.target, "", None)
    else
      var u := env.parse(rule.url).value;
      RouteView(rule.target, "", Some(if rule.target == ToUrl && rule.excludeAction then u else Joined(env, u, endpoint)))
  }

  // ---------------------------------------------------------- scanning the rules

  datatype Key = Key(domain: string, version: string, endpoint: string)

  predicate Matches(rule: Rule, k: Key) {
    DomainOf(rule.domain, rule.version) == k.domain && rule.version == k.version && k.endpoint in rule.endpoints
  }

  ghost predicate AllValid(env: Env, rules: seq<Rule>) {
    forall i :: 0 <= i < |rules| ==> ValidRule(env, rules[i])
  }

  /** The last rule that matches decides. */
  ghost function Scan(env: Env, rules: seq<Rule>, k: Key): Option<RouteView>
    requires AllValid(env, rules)
  {
    if rules == [] then None
    else if Matches(rules[|rules| - 1], k) then Some(RouteFor(env, rules[|rules| - 1], k.endpoint))
    else Scan(env, rules[..|rules| - 1], k)
  }

  /** One endpoint of one rule, in the order they are loaded. */
  datatype Entry = Entry(rule: Rule, endpoint: string)

  function KeyOf(x: Entry): Key {
    Key(DomainOf(x.rule.domain, x.rule.version), x.rule.version, x.endpoint)
  }

  function EntriesOf(rule: Rule): seq<Entry> {
    seq(|rule.endpoints|, i requires 0 <= i < |rule.endpoints| => Entry(rule, rule.endpoints[i]))
  }

  function Entries(rules: seq<Rule>): seq<Entry> {
    if rules == [] then [] else Entries(rules[..|rules| - 1]) + EntriesOf(rules[|rules| - 1])
  }

  /** The same endpoint twice for one v2 version, in two rules or in one. */
  ghost predicate Repeats(xs: seq<Entry>) {
    exists i, j :: 0 <= i < j < |xs| && IsV2(xs[i].rule.version) && KeyOf(xs[i]) == KeyOf(xs[j])
  }

  ghost predicate AllValidEntries(env: Env, xs: seq<Entry>) {
    forall i :: 0 <= i < |xs| ==> ValidRule(env, xs[i].rule)
  }

  ghost function LastEntry(env: Env, xs: seq<Entry>, k: Key): Option<RouteView>
    requires AllValidEntries(env, xs)
  {
    if xs == [] then None
    else if KeyOf(xs[|xs| - 1]) == k then Some(RouteFor(env, xs[|xs| - 1].rule, k.endpoint))
    else LastEntry(env, xs[..|xs| - 1], k)
  }

  lemma LastEntryNext(env: Env, xs: seq<Entry>, x: Entry, k: Key)
    requires AllValidEntries(env, xs) && ValidRule(env, x.rule)
    ensures LastEntry(env, xs + [x], k) == if KeyOf(x) == k then Some(RouteFor(env, x.rule, k.endpoint)) else LastEntry(env, xs, k)
  {
    assert (xs + [x])[..|xs|] == xs;
  }

  lemma {:induction false} LastEntryFound(env: Env, xs: seq<Entry>, k: Key)
    requires AllValidEntries(env, xs)
    ensures LastEntry(env, xs, k).Some? <==> exists i :: 0 <= i < |xs| && KeyOf(xs[i]) == k
  {
    if xs != [] {
      LastEntryFound(env, xs[..|xs| - 1], k);
      if i :| 0 <= i < |xs| && KeyOf(xs[i]) == k {
        assert i == |xs| - 1 || xs[..|xs| - 1][i] == xs[i];
      }
    }
  }

  predicate MatchesIn(rule: Rule, n: nat, k: Key)
    requires n <= |rule.endpoints|
  {
    DomainOf(rule.domain, rule.version) == k.domain && rule.version == k.version && k.endpoint in rule.endpoints[..n]
  }

  lemma MatchesNext(rule: Rule, n: nat, k: Key)
    requires n < |rule.endpoints|
    ensures MatchesIn(rule, n + 1, k) <==> MatchesIn(rule, n, k) || KeyOf(Entry(rule, rule.endpoints[n])) == k
  {
    assert rule.endpoints[..n + 1] == rule.endpoints[..n] + [rule.endpoints[n]];
  }

  lemma EntriesTake(xs: seq<Entry>, rule: Rule, n: nat)
    requires n < |rule.endpoints|
    ensures xs + EntriesOf(rule)[..n + 1] == xs + EntriesOf(rule)[..n] + [Entry(rule, rule.endpoints[n])]
  {
  }

  lemma ValidOfRule(env: Env, xs: seq<Entry>, rule: Rule, n: nat)
    requires AllValidEntries(env, xs) && ValidRule(env, rule) && n <= |rule.endpoints|
    ensures AllValidEntries(env, xs + EntriesOf(rule)[..n])
  {
  }

  /** The rule's first n endpoints, or else the entries before them. */
  ghost function LastInRule(env: Env, xs: seq<Entry>, rule: Rule, n: nat, k: Key): Option<RouteView>
    requires AllValidEntries(env, xs) && ValidRule(env, rule) && n <= |rule.endpoints|
  {
    if MatchesIn(rule, n, k) then Some(RouteFor(env, rule, k.endpoint)) else LastEntry(env, xs, k)
  }

  lemma {:induction false} LastEntryOfRule(env: Env, xs: seq<Entry>, rule: Rule, n: nat, k: Key)
    requires AllValidEntries(env, xs) && ValidRule(env, rule) && n <= |rule.endpoints|
    requires AllValidEntries(env, xs + EntriesOf(rule)[..n])
    ensures LastEntry(env, xs + EntriesOf(rule)[..n], k) == LastInRule(env, xs, rule, n, k)
  {
    if n == 0 {
      assert xs + EntriesOf(rule)[..0] == xs;
    } else {
      var before := xs + EntriesOf(rule)[..n - 1];
      ValidOfRule(env, xs, rule, n - 1);
      LastEntryOfRule(env, xs, rule, n - 1, k);
      EntriesTake(xs, rule, n - 1);
      MatchesNext(rule, n - 1, k);
      LastEntryNext(env, before, Entry(rule, rule.endpoints[n - 1]), k);
    }
  }

  /** Loading endpoint by endpoint comes to scanning the rules. */
  lemma {:induction false} EntriesScan(env: Env, rules: seq<Rule>, k: Key)
    requires AllValid(env, rules)
    ensures AllValidEntries(env, Entries(rules))
    ensures LastEntry(env, Entries(rules), k) == Scan(env, rules, k)
  {
    if rules != [] {
      var before, rule := rules[..|rules| - 1], rules[|rules| - 1];
      EntriesScan(env, before, k);
      ValidOfRule(env, Entries(before), rule, |rule.endpoints|);
      LastEntryOfRule(env, Entries(before), rule, |rule.endpoints|, k);
      assert EntriesOf(rule)[..|rule.endpoints|] == EntriesOf(rule);
      assert rule.endpoints[..|rule.endpoints|] == rule.endpoints;
    }
  }

  /** Where no v2 endpoint is repeated, at most one rule speaks of it: the scan could as
      well have taken the first. */
  lemma OneRuleForV2(rules: seq<Rule>, k: Key, i: nat, j: nat)
    requires !Repeats(Entries(rules)) && IsV2(k.version)
    requires i < |rules| && j < |rules| && Matches(rules[i], k) && Matches(rules[j], k)
    ensures i == j
  {
    if i < j {
      TwoRulesRepeat(rules, k, i, j);
    } else if j < i {
      TwoRulesRepeat(rules, k, j, i);
    }
  }

  lemma {:induction false} EntryOf(rules: seq<Rule>, k: Key, i: nat) returns (p: nat)
    requires i < |rules| && Matches(rules[i], k)
    ensures |Entries(rules[..i])| <= p < |Entries(rules[..i + 1])| <= |Entries(rules)|
    ensures KeyOf(Entries(rules)[p]) == k
    decreases |rules|
  {
    var before, rule := rules[..|rules| - 1], rules[|rules| - 1];
    if i == |rules| - 1 {
      var e :| 0 <= e < |rule.endpoints| && rule.endpoints[e] == k.endpoint;
      p := |Entries(before)| + e;
      assert rules[..i + 1] == rules;
      assert EntriesOf(rule)[e] == Entry(rule, k.endpoint);
    } else {
      p := EntryOf(before, k, i);
      assert before[..i] == rules[..i] && before[..i + 1] == rules[..i + 1];
    }
  }

  lemma {:induction false} EntriesGrow(rules: seq<Rule>, i: nat, j: nat)
    requires i <= j <= |rules|
    ensures |Entries(rules[..i])| <= |Entries(rules[..j])|
    decreases j - i
  {
    if i < j {
      EntriesGrow(rules, i, j - 1);
      assert rules[..j][..j - 1] == rules[..j - 1];
    }
  }

  lemma TwoRulesRepeat(rules: seq<Rule>, k: Key, i: nat, j: nat)
    requires i < j < |rules| && Matches(rules[i], k) && Matches(rules[j], k) && IsV2(k.version)
    ensures Repeats(Entries(rules))
  {
    var p := EntryOf(rules, k, i);
    var q := EntryOf(rules, k, j);
    EntriesGrow(rules, i + 1, j);
    assert p < q && Entries(rules)[p].rule.version == k.version;
  }

  // --------------------------------------------------------- loading the table

  class Url {
    var base: string
    var path: string
    var query: string

    constructor (u: UrlView)
      ensures View() == u
    {
      base, path, query := u.base, u.path, u.query;
    }

    ghost function View(): UrlView
      reads this
    {
      UrlView(base, path, query)
    }

    method Clone() returns (u: Url)
      ensures fresh(u) && u.View() == View()
    {
      u := new Url(UrlView(base, path, query));
    }
  }

  /** A route of the table holds its URL by reference. */
  datatype Route = Route(target: Target, publisherId: string, url: Url?)

  ghost function ViewOf(r: Route): RouteView
    reads r.url
  {
    RouteView(r.target, r.publisherId, if r.url == null then None else Some(r.url.View()))
  }

  type Table = map<string, map<string, map<string, Route>>>

  predicate Has(t: Table, k: Key) {
    k.domain in t && k.version in t[k.domain] && k.endpoint in t[k.domain][k.version]
  }

  function Get(t: Table, k: Key): Route
    requires Has(t, k)
  {
    t[k.domain][k.version][k.endpoint]
  }

  function Put(t: Table, k: Key, r: Route): Table
    requires k.domain in t && k.version in t[k.domain]
  {
    t[k.domain := t[k.domain][k.version := t[k.domain][k.version][k.endpoint := r]]]
  }

  lemma GetAfterPut(t: Table, k: Key, r: Route, j: Key)
    requires k.domain in t && k.version in t[k.domain]
    ensures Has(Put(t, k, r), j) <==> j == k || Has(t, j)
    ensures Has(Put(t, k, r), j) ==> Get(Put(t, k, r), j) == if j == k then r else Get(t, j)
  {
  }

  /** The table holds, for every key, what the last of the entries with that key says, and
      its URLs are among these. */
  ghost predicate Holds(env: Env, t: Table, urls: set<Url>, xs: seq<Entry>)
    requires AllValidEntries(env, xs)
    reads urls
  {
    forall k :: HoldsAt(env, t, urls, xs, k)
  }

  ghost predicate HoldsAt(env: Env, t: Table, urls: set<Url>, xs: seq<Entry>, k: Key)
    requires AllValidEntries(env, xs)
    reads urls
  {
    if Has(t, k) then
      && (Get(t, k).url != null ==> Get(t, k).url in urls)
      && Some(ViewOf(Get(t, k))) == LastEntry(env, xs, k)
    else LastEntry(env, xs, k) == None
  }

  /** The domains that have rules, and the versions each has. */
  ghost predicate Spans(t: Table, rules: seq<Rule>) {
    && (forall d :: d in t <==> exists i :: 0 <= i < |rules| && DomainOf(rules[i].domain, rules[i].version) == d)
    && (forall d, v :: d in t && v in t[d] <==>
          exists i :: 0 <= i < |rules| && DomainOf(rules[i].domain, rules[i].version) == d && rules[i].version == v)
  }

  /** The table after the maps for a rule's domain and version are there. */
  function Opened(t: Table, d: string, v: string): Table {
    var t1: Table := if d in t then t else t[d := map[]];
    if v in t1[d] then t1 else t1[d := t1[d][v := map[]]]
  }

  lemma OpenedHolds(env: Env, t: Table, urls: set<Url>, xs: seq<Entry>, d: string, v: string)
    requires AllValidEntries(env, xs) && Holds(env, t, urls, xs)
    ensures Holds(env, Opened(t, d, v), urls, xs)
  {
    var o := Opened(t, d, v);
    forall k ensures HoldsAt(env, o, urls, xs, k) {
      assert HoldsAt(env, t, urls, xs, k);
      assert Has(o, k) <==> Has(t, k);
      assert Has(o, k) ==> Get(o, k) == Get(t, k);
    }
  }

  lemma OpenedSpans(t: Table, rules: seq<Rule>, rule: Rule)
    requires Spans(t, rules)
    ensures Spans(Opened(t, DomainOf(rule.domain, rule.version), rule.version), rules + [rule])
  {
    var all := rules + [rule];
    assert all[|rules|] == rule;
    assert forall i :: 0 <= i < |rules| ==> all[i] == rules[i];
  }

  predicate SameSpan(t: Table, o: Table) {
    t.Keys == o.Keys && forall d :: d in t ==> t[d].Keys == o[d].Keys
  }

  lemma AllValidNext(env: Env, rules: seq<Rule>, rule: Rule)
    requires AllValid(env, rules) && ValidRule(env, rule)
    ensures AllValid(env, rules + [rule])
  {
  }

  lemma SpansKept(t: Table, o: Table, rules: seq<Rule>)
    requires Spans(t, rules) && SameSpan(o, t)
    ensures Spans(o, rules)
  {
  }

  lemma PutHolds(env: Env, t: Table, urls: set<Url>, xs: seq<Entry>, x: Entry, r: Route, more: set<Url>)
    requires AllValidEntries(env, xs) && ValidRule(env, x.rule) && Holds(env, t, urls, xs)
    requires KeyOf(x).domain in t && KeyOf(x).version in t[KeyOf(x).domain]
    requires ViewOf(r) == RouteFor(env, x.rule, x.endpoint)
    requires urls <= more && (r.url != null ==> r.url in more)
    ensures AllValidEntries(env, xs + [x]) && Holds(env, Put(t, KeyOf(x), r), more, xs + [x])
  {
    forall k ensures HoldsAt(env, Put(t, KeyOf(x), r), more, xs + [x], k) {
      assert HoldsAt(env, t, urls, xs, k);
      GetAfterPut(t, KeyOf(x), r, k);
      LastEntryNext(env, xs, x, k);
    }
  }

  lemma RepeatsMore(xs: seq<Entry>, ys: seq<Entry>)
    requires Repeats(xs)
    ensures Repeats(xs + ys)
  {
    var i, j :| 0 <= i < j < |xs| && IsV2(xs[i].rule.version) && KeyOf(xs[i]) == KeyOf(xs[j]);
    assert (xs + ys)[i] == xs[i] && (xs + ys)[j] == xs[j];
  }

  /** An endpoint repeats exactly if the table already has it for a v2 version. */
  lemma RepeatsNext(env: Env, t: Table, urls: set<Url>, xs: seq<Entry>, x: Entry)
    requires AllValidEntries(env, xs) && Holds(env, t, urls, xs) && !Repeats(xs)
    ensures Repeats(xs + [x]) <==> IsV2(x.rule.version) && Has(t, KeyOf(x))
  {
    var all := xs + [x];
    assert all[|xs|] == x && forall i :: 0 <= i < |xs| ==> all[i] == xs[i];
    assert HoldsAt(env, t, urls, xs, KeyOf(x));
    LastEntryFound(env, xs, KeyOf(x));
    if Repeats(all) {
      var i, j :| 0 <= i < j < |all| && IsV2(all[i].rule.version) && KeyOf(all[i]) == KeyOf(all[j]);
      assert j == |xs| && KeyOf(xs[i]) == KeyOf(x);
    }
  }

  lemma EntriesNext(rules: seq<Rule>, rule: Rule)
    ensures Entries(rules + [rule]) == Entries(rules) + EntriesOf(rule)
  {
    assert (rules + [rule])[..|rules|] == rules;
  }

  lemma {:induction false} RepeatsTake(rules: seq<Rule>, n: nat)
    requires n <= |rules| && Repeats(Entries(rules[..n]))
    ensures Repeats(Entries(rules))
    decreases |rules| - n
  {
    if n == |rules| {
      assert rules[..n] == rules;
    } else {
      assert rules[..n + 1] == rules[..n] + [rules[n]];
      EntriesNext(rules[..n], rules[n]);
      RepeatsMore(Entries(rules[..n]), EntriesOf(rules[n]));
      RepeatsTake(rules, n + 1);
    }
  }

  lemma RepeatsInRule(xs: seq<Entry>, rule: Rule, n: nat)
    requires n < |rule.endpoints| && Repeats(xs + EntriesOf(rule)[..n] + [Entry(rule, rule.endpoints[n])])
    ensures Repeats(xs + EntriesOf(rule))
  {
    EntriesTake(xs, rule, n);
    RepeatsMore(xs + EntriesOf(rule)[..n + 1], EntriesOf(rule)[n + 1..]);
    assert xs + EntriesOf(rule)[..n + 1] + EntriesOf(rule)[n + 1..] == xs + EntriesOf(rule);
  }

  /** The table agrees with these rules. */
  ghost predicate Agrees(env: Env, t: Table, urls: set<Url>, rules: seq<Rule>)
    reads urls
  {
    && AllValid(env, rules) && AllValidEntries(env, Entries(rules))
    && !Repeats(Entries(rules))
    && Holds(env, t, urls, Entries(rules))
    && Spans(t, rules)
  }

  /** After a load, the three-level table answers every key as a scan of the rules does. */
  lemma TableIsScan(env: Env, t: Table, urls: set<Url>, rules: seq<Rule>, k: Key)
    requires Agrees(env, t, urls, rules)
    ensures Has(t, k) <==> Scan(env, rules, k).Some?
    ensures Has(t, k) ==> Scan(env, rules, k) == Some(ViewOf(Get(t, k)))
  {
    assert HoldsAt(env, t, urls, Entries(rules), k);
    EntriesScan(env, rules, k);
  }

  // ------------------------------------------------------------------ routing

  datatype Body = Empty | Malformed | Carries(domain: string, version: string, bppUri: string, bapUri: string)

  datatype Request = Request(endpoint: string, query: string, body: Body)

  datatype Fault = BadBody | NoDomain | NoVersion | NoEndpoint | NoDestination | BadUri | NoV2Rules | NeedsBody

  datatype Result<T> = Ok(value: T) | Err(fault: Fault)

  function WithQuery(u: UrlView, query: string): UrlView {
    if query == "" then u else u.(query := query)
  }

  function ToUrlView(u: UrlView): Result<RouteView> {
    Ok(RouteView(ToUrl, "", Some(u)))
  }

  /** A destination named by the request, or else the rule's own. */
  function Mapped(env: Env, route: RouteView, uri: string, endpoint: string, query: string): Result<RouteView> {
    var target := TrimSpace(uri);
    if target == "" then
      if route.url.None? then Err(NoDestination) else ToUrlView(WithQuery(route.url.value, query))
    else if env.parse(target).None? then Err(BadUri)
    else ToUrlView(WithQuery(Joined(env, env.parse(target).value, endpoint), query))
  }

  /** A fixed destination, carrying the request's query. */
  function Fixed(route: RouteView, query: string): RouteView {
    if query != "" && route.target == ToUrl && route.url.Some? then RouteView(ToUrl, "", Some(route.url.value.(query := query)))
    else route
  }

  ghost predicate HasRule(rules: seq<Rule>, domain: string) {
    exists i :: 0 <= i < |rules| && DomainOf(rules[i].domain, rules[i].version) == domain
  }

  ghost predicate HasVersion(rules: seq<Rule>, domain: string, version: string) {
    exists i :: 0 <= i < |rules| && DomainOf(rules[i].domain, rules[i].version) == domain && rules[i].version == version
  }

  /** The answer to a request with a body, read off the rule list. */
  ghost function Answer(env: Env, rules: seq<Rule>, req: Request): Result<RouteView>
    requires AllValid(env, rules) && req.body.Carries?
  {
    var b := req.body;
    var domain := DomainOf(b.domain, b.version);
    if !HasRule(rules, domain) then Err(NoDomain)
    else if !HasVersion(rules, domain, b.version) then Err(NoVersion)
    else
      match Scan(env, rules, Key(domain, b.version, req.endpoint))
      case None => Err(NoEndpoint)
      case Some(route) =>
        if route.target in {Bpp, Receiver} then Mapped(env, route, b.bppUri, req.endpoint, req.query)
        else if route.target in {Bap, Sender} then Mapped(env, route, b.bapUri, req.endpoint, req.query)
        else Ok(Fixed(route, req.query))
  }

  /** A request without a body may be answered from any version that has its endpoint. */
  ghost predicate AnswersBodyless(env: Env, rules: seq<Rule>, req: Request, r: Result<RouteView>)
    requires AllValid(env, rules)
  {
    if !HasRule(rules, ANY) then r == Err(NoV2Rules)
    else if forall v :: Scan(env, rules, Key(ANY, v, req.endpoint)) == None then r == Err(NoEndpoint)
    else exists v :: FitsVersion(env, rules, req, v, r)
  }

  ghost predicate FitsVersion(env: Env, rules: seq<Rule>, req: Request, v: string, r: Result<RouteView>)
    requires AllValid(env, rules)
  {
    match Scan(env, rules, Key(ANY, v, req.endpoint))
    case None => false
    case Some(route) => r == Decide(route, req.query)
  }

  /** Without a body there is nowhere to read a destination from. */
  function Decide(route: RouteView, query: string): Result<RouteView> {
    if route.target in {Bpp, Bap, Receiver, Sender} then Err(NeedsBody) else Ok(Fixed(route, query))
  }

  lemma {:induction false} ScanFinds(env: Env, rules: seq<Rule>, k: Key)
    requires AllValid(env, rules)
    ensures Scan(env, rules, k).Some? <==> exists i :: 0 <= i < |rules| && Matches(rules[i], k)
  {
    if rules != [] {
      ScanFinds(env, rules[..|rules| - 1], k);
      if i :| 0 <= i < |rules| && Matches(rules[i], k) {
        assert i == |rules| - 1 || rules[..|rules| - 1][i] == rules[i];
      }
    }
  }

  /** Some rule of this version speaks of the endpoint under the wildcard. */
  ghost predicate CanAnswer(env: Env, rules: seq<Rule>, endpoint: string, v: string)
    requires AllValid(env, rules)
  {
    Scan(env, rules, Key(ANY, v, endpoint)).Some?
  }

  /** A rule of an earlier version, written for the domain "*", that lists the endpoint. */
  predicate EarlierWildcard(rule: Rule, endpoint: string) {
    !IsV2(rule.version) && rule.domain == ANY && endpoint in rule.endpoints
  }

  /** The wildcard is v2's alone, as far as an endpoint goes, if and only if no rule of an
      earlier version is written for the domain "*" and lists it. */
  lemma BodylessIsV2Exactly(env: Env, rules: seq<Rule>, endpoint: string)
    requires AllValid(env, rules)
    ensures (forall v :: CanAnswer(env, rules, endpoint, v) ==> IsV2(v))
       <==> forall i :: 0 <= i < |rules| ==> !EarlierWildcard(rules[i], endpoint)
  {
    if i :| 0 <= i < |rules| && EarlierWildcard(rules[i], endpoint) {
      ScanFinds(env, rules, Key(ANY, rules[i].version, endpoint));
      assert CanAnswer(env, rules, endpoint, rules[i].version);
    } else {
      forall v | CanAnswer(env, rules, endpoint, v) ensures IsV2(v) {
        ScanFinds(env, rules, Key(ANY, v, endpoint));
        var i :| 0 <= i < |rules| && Matches(rules[i], Key(ANY, v, endpoint));
        assert !EarlierWildcard(rules[i], endpoint);
      }
    }
  }

  /** Such a rule does answer: the failing case, for every list that holds one. */
  lemma BodylessReachesEarlierVersions(env: Env, rules: seq<Rule>, endpoint: string, i: nat)
    requires AllValid(env, rules) && i < |rules| && EarlierWildcard(rules[i], endpoint)
    ensures exists r :: FitsVersion(env, rules, Request(endpoint, "", Empty), rules[i].version, r)
                     && AnswersBodyless(env, rules, Request(endpoint, "", Empty), r)
  {
    var k := Key(ANY, rules[i].version, endpoint);
    ScanFinds(env, rules, k);
    var r := Decide(Scan(env, rules, k).value, "");
    assert DomainOf(rules[i].domain, rules[i].version) == ANY;
    assert FitsVersion(env, rules, Request(endpoint, "", Empty), rules[i].version, r);
  }

  predicate NamedByRequest(route: RouteView) {
    route.target in {Bpp, Bap, Receiver, Sender}
  }

  /** Two routes no request without a body can tell apart. */
  predicate Alike(a: RouteView, b: RouteView) {
    (NamedByRequest(a) && NamedByRequest(b)) || a == b
  }

  /** Which version the map yields first makes no difference, whatever the query. */
  ghost predicate OneAnswer(env: Env, rules: seq<Rule>, endpoint: string)
    requires AllValid(env, rules)
  {
    forall query, r, q :: MayAnswer(env, rules, endpoint, query, r) && MayAnswer(env, rules, endpoint, query, q) ==> r == q
  }

  ghost predicate MayAnswer(env: Env, rules: seq<Rule>, endpoint: string, query: string, r: Result<RouteView>)
    requires AllValid(env, rules)
  {
    AnswersBodyless(env, rules, Request(endpoint, query, Empty), r)
  }

  lemma FitsIsAnswer(env: Env, rules: seq<Rule>, req: Request, v: string)
    requires AllValid(env, rules) && CanAnswer(env, rules, req.endpoint, v)
    ensures AnswersBodyless(env, rules, req, Decide(Scan(env, rules, Key(ANY, v, req.endpoint)).value, req.query))
    ensures req.body.Empty? ==> MayAnswer(env, rules, req.endpoint, req.query, Decide(Scan(env, rules, Key(ANY, v, req.endpoint)).value, req.query))
  {
    ScanFinds(env, rules, Key(ANY, v, req.endpoint));
    assert FitsVersion(env, rules, req, v, Decide(Scan(env, rules, Key(ANY, v, req.endpoint)).value, req.query));
  }

  /** A request without a body has one answer for every query if and only if all the versions
      that list its endpoint under the wildcard route it alike. */
  lemma BodylessIsOneExactly(env: Env, rules: seq<Rule>, endpoint: string)
    requires AllValid(env, rules)
    ensures OneAnswer(env, rules, endpoint)
       <==> forall v, w :: CanAnswer(env, rules, endpoint, v) && CanAnswer(env, rules, endpoint, w) ==>
              Alike(Scan(env, rules, Key(ANY, v, endpoint)).value, Scan(env, rules, Key(ANY, w, endpoint)).value)
  {
    if OneAnswer(env, rules, endpoint) {
      forall v, w | CanAnswer(env, rules, endpoint, v) && CanAnswer(env, rules, endpoint, w)
        ensures Alike(Scan(env, rules, Key(ANY, v, endpoint)).value, Scan(env, rules, Key(ANY, w, endpoint)).value)
      {
        FitsIsAnswer(env, rules, Request(endpoint, "", Empty), v);
        FitsIsAnswer(env, rules, Request(endpoint, "", Empty), w);
      }
    }
  }

  ghost predicate Answers(env: Env, rules: seq<Rule>, req: Request, r: Result<RouteView>)
    requires AllValid(env, rules)
  {
    match req.body
    case Malformed => r == Err(BadBody)
    case Empty => AnswersBodyless(env, rules, req, r)
    case Carries(_, _, _, _) => r == Answer(env, rules, req)
  }

  ghost function Seen(r: Result<Route>): Result<RouteView>
    reads if r.Ok? then {r.value.url} else {}
  {
    match r
    case Err(fault) => Err(fault)
    case Ok(route) => Ok(ViewOf(route))
  }

  class Router {
    const env: Env
    var rules: Table
    ghost var urls: set<Url>
    ghost var config: seq<Rule>

    /** The table and the rule list agree. */
    ghost predicate Valid()
      reads this, urls
    {
      Agrees(env, rules, urls, config)
    }

    constructor (env: Env)
      ensures this.env == env && rules == map[] && urls == {} && config == [] && Valid()
    {
      this.env, rules, urls, config := env, map[], {}, [];
    }

    method NewRoute(rule: Rule, endpoint: string) returns (r: Route)
      requires ValidRule(env, rule)
      ensures ViewOf(r) == RouteFor(env, rule, endpoint)
      ensures r.url != null ==> fresh(r.url)
    {
      if rule.target == ToPublisher {
        return Route(ToPublisher, rule.publisherId, null);
      }
      if rule.url == "" {
        return Route(rule.target, "", null);
      }
      var u := new Url(env.parse(rule.url).value);
      if !(rule.target == ToUrl && rule.excludeAction) {
        if u.path == "" {
          u.path := "/";
        }
        u.path := env.join(u.path, endpoint);
      }
      return Route(rule.target, "", u);
    }

    /** Adds one endpoint of a rule, unless a v2 rule already has it. */
    method AddEndpoint(rule: Rule, endpoint: string, ghost done: seq<Entry>) returns (ok: bool)
      requires AllValidEntries(env, done) && ValidRule(env, rule) && Holds(env, rules, urls, done)
      requires var k := KeyOf(Entry(rule, endpoint)); k.domain in rules && k.version in rules[k.domain]
      modifies this
      ensures ok <==> !(IsV2(rule.version) && Has(old(rules), KeyOf(Entry(rule, endpoint))))
      ensures ok ==> AllValidEntries(env, done + [Entry(rule, endpoint)]) && Holds(env, rules, urls, done + [Entry(rule, endpoint)])
      ensures config == old(config) && SameSpan(rules, old(rules))
    {
      var k := KeyOf(Entry(rule, endpoint));
      var route := NewRoute(rule, endpoint);
      if IsV2(rule.version) && k.endpoint in rules[k.domain][k.version] {
        return false;
      }
      ghost var more := if route.url == null then urls else urls + {route.url};
      PutHolds(env, rules, urls, done, Entry(rule, endpoint), route, more);
      rules, urls := Put(rules, k, route), more;
      return true;
    }

    method AddEndpoints(rule: Rule, ghost xs: seq<Entry>) returns (ok: bool)
      requires AllValidEntries(env, xs) && ValidRule(env, rule) && Holds(env, rules, urls, xs) && !Repeats(xs)
      requires DomainOf(rule.domain, rule.version) in rules && rule.version in rules[DomainOf(rule.domain, rule.version)]
      modifies this
      ensures ok <==> !Repeats(xs + EntriesOf(rule))
      ensures ok ==> AllValidEntries(env, xs + EntriesOf(rule)) && Holds(env, rules, urls, xs + EntriesOf(rule))
      ensures config == old(config) && SameSpan(rules, old(rules))
    {
      ghost var done := xs;
      for n := 0 to |rule.endpoints|
        invariant done == xs + EntriesOf(rule)[..n]
        invariant AllValidEntries(env, done) && Holds(env, rules, urls, done) && !Repeats(done)
        invariant config == old(config) && SameSpan(rules, old(rules))
      {
        RepeatsNext(env, rules, urls, done, Entry(rule, rule.endpoints[n]));
        ok := AddEndpoint(rule, rule.endpoints[n], done);
        if !ok {
          RepeatsInRule(xs, rule, n);
          return;
        }
        EntriesTake(xs, rule, n);
        done := done + [Entry(rule, rule.endpoints[n])];
      }
      assert EntriesOf(rule)[..|rule.endpoints|] == EntriesOf(rule);
      return true;
    }

    method AddRule(rule: Rule, ghost before: seq<Rule>) returns (ok: bool)
      requires Agrees(env, rules, urls, before) && ValidRule(env, rule)
      modifies this
      ensures ok <==> !Repeats(Entries(before + [rule]))
      ensures ok ==> Agrees(env, rules, urls, before + [rule])
      ensures config == old(config)
    {
      EntriesNext(before, rule);
      AllValidNext(env, before, rule);
      OpenFor(rule, before);
      ghost var ready := rules;
      ok := AddEndpoints(rule, Entries(before));
      SpansKept(ready, rules, before + [rule]);
    }

    method OpenFor(rule: Rule, ghost before: seq<Rule>)
      requires Agrees(env, rules, urls, before)
      modifies this`rules
      ensures Holds(env, rules, urls, Entries(before)) && Spans(rules, before + [rule])
      ensures DomainOf(rule.domain, rule.version) in rules && rule.version in rules[DomainOf(rule.domain, rule.version)]
    {
      OpenedHolds(env, rules, urls, Entries(before), DomainOf(rule.domain, rule.version), rule.version);
      OpenedSpans(rules, before, rule);
      Open(DomainOf(rule.domain, rule.version), rule.version);
    }

    /** Makes room for a rule's domain and version where there is none. */
    method Open(domain: string, version: string)
      modifies this`rules
      ensures rules == Opened(old(rules), domain, version)
      ensures domain in rules && version in rules[domain]
    {
      if domain !in rules {
        rules := rules[domain := map[]];
      }
      if version !in rules[domain] {
        rules := rules[domain := rules[domain][version := map[]]];
      }
    }

    method ValidateRules(config: seq<Rule>) returns (ok: bool)
      ensures ok <==> AllValid(env, config)
    {
      for i := 0 to |config|
        invariant forall k :: 0 <= k < i ==> ValidRule(env, config[k])
      {
        if !ValidRule(env, config[i]) {
          return false;
        }
      }
      return true;
    }

    /** The rules are accepted exactly if each is valid and no v2 endpoint is repeated. */
    method Load(config: seq<Rule>) returns (ok: bool)
      requires Valid() && this.config == []
      modifies this
      ensures ok <==> AllValid(env, config) && !Repeats(Entries(config))
      ensures ok ==> Valid() && this.config == config
    {
      var valid := ValidateRules(config);
      if !valid {
        return false;
      }
      assert config[..0] == [] && config[..|config|] == config;
      for i := 0 to |config|
        invariant Agrees(env, rules, urls, config[..i])
      {
        ok := AddRule(config[i], config[..i]);
        assert config[..i] + [config[i]] == config[..i + 1];
        if !ok {
          RepeatsTake(config, i + 1);
          return;
        }
      }
      this.config := config;
      return true;
    }

    /** Nothing that was there before is written: a query goes onto a clone. */
    method MapProtocol(route: Route, uri: string, endpoint: string, query: string) returns (r: Result<Route>)
      ensures Seen(r) == Mapped(env, ViewOf(route), uri, endpoint, query)
    {
      var target := TrimSpace(uri);
      if target == "" {
        if route.url == null {
          return Err(NoDestination);
        }
        if query != "" {
          var fallback := route.url.Clone();
          fallback.query := query;
          return Ok(Route(ToUrl, "", fallback));
        }
        return Ok(Route(ToUrl, "", route.url));
      }
      if env.parse(target).None? {
        return Err(BadUri);
      }
      var u := new Url(env.parse(target).value);
      u.path := env.join(if u.path == "" then "/" else u.path, endpoint);
      if query != "" {
        u.query := query;
      }
      return Ok(Route(ToUrl, "", u));
    }

    method FixedRoute(route: Route, query: string) returns (r: Route)
      ensures ViewOf(r) == Fixed(ViewOf(route), query)
    {
      if query != "" && route.target == ToUrl && route.url != null {
        var clone := route.url.Clone();
        clone.query := query;
        return Route(ToUrl, "", clone);
      }
      return route;
    }

    method RouteBodyless(req: Request) returns (r: Result<Route>)
      requires Valid()
      ensures AnswersBodyless(env, config, req, Seen(r))
    {
      if ANY !in rules {
        return Err(NoV2Rules);
      }
      var found := set v | v in rules[ANY] && req.endpoint in rules[ANY][v];
      if found == {} {
        forall v ensures Scan(env, config, Key(ANY, v, req.endpoint)) == None {
          TableIsScan(env, rules, urls, config, Key(ANY, v, req.endpoint));
          assert v !in found;
        }
        return Err(NoEndpoint);
      }
      var v :| v in found;
      var route := rules[ANY][v][req.endpoint];
      TableIsScan(env, rules, urls, config, Key(ANY, v, req.endpoint));
      if route.target in {Bpp, Bap, Receiver, Sender} {
        r := Err(NeedsBody);
      } else {
        var fixed := FixedRoute(route, req.query);
        r := Ok(fixed);
      }
      assert FitsVersion(env, config, req, v, Seen(r));
    }

    /** Every request is answered as a scan of the rules says, and no URL that existed
        before the call has changed after it. */
    method RouteRequest(req: Request) returns (r: Result<Route>)
      requires Valid()
      ensures Answers(env, config, req, Seen(r))
    {
      match req.body
      case Malformed => return Err(BadBody);
      case Empty => r := RouteBodyless(req);
      case Carries(domain, version, bppUri, bapUri) =>
        var k := Key(DomainOf(domain, version), version, req.endpoint);
        TableIsScan(env, rules, urls, config, k);
        if k.domain !in rules {
          return Err(NoDomain);
        }
        if version !in rules[k.domain] {
          return Err(NoVersion);
        }
        if req.endpoint !in rules[k.domain][version] {
          return Err(NoEndpoint);
        }
        var route := rules[k.domain][version][req.endpoint];
        if route.target == Bpp || route.target == Receiver {
          r := MapProtocol(route, bppUri, req.endpoint, req.query);
        } else if route.target == Bap || route.target == Sender {
          r := MapProtocol(route, bapUri, req.endpoint, req.query);
        } else {
          var fixed := FixedRoute(route, req.query);
          r := Ok(fixed);
        }
    }

    /** Over any sequence of requests the table stays what was loaded, and every answer is
        still what the scan says when the last call has been made. */
    method RouteAll(reqs: seq<Request>) returns (rs: seq<Result<Route>>)
      requires Valid()
      ensures Valid() && |rs| == |reqs|
      ensures forall i :: 0 <= i < |reqs| ==> Answers(env, config, reqs[i], Seen(rs[i]))
    {
      rs := [];
      for n := 0 to |reqs|
        invariant |rs| == n
        invariant forall i :: 0 <= i < n ==> Answers(env, config, reqs[i], Seen(rs[i]))
      {
        var r := RouteRequest(reqs[n]);
        rs := rs + [r];
      }
    }
  }
}
