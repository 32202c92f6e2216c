/** The evidence cache with a request budget, src/dev/participation-research-data.ts. Pages are raw texts; what a
    page says about its rows and its successor, and what makes the pages valid evidence, are parameters. */
module ParticipationCache {
  import opened Wrappers

  datatype Kind = DAILY | SPLITS
  datatype Symbol = SPY | QQQ | DIA | IWM | RSP
  datatype Request = Request(kind: Kind, symbol: Symbol, from: string, to: string)
  type Page = string
  type Evidence = seq<Page>

  /** The provider as the cache sees it: it answers the same endpoint in the same way every time. */
  datatype Provider = Provider(
    initial: Request -> string,
    transport: string -> Result<Page, string>,
    rowsError: Page -> Option<string>,
    advance: (Request, Page) -> Result<Option<string>, string>,
    retain: (Request, Page) -> Page,
    evidenceError: (Request, Evidence) -> Option<string>,
    digest: Evidence -> string)

  datatype Stored = Ok(evidence: Evidence, digest: string) | Error(error: string)
  datatype File = Unreadable | Envelope(version: int, key: string, result: Stored)
  datatype CacheResult = Loaded(evidence: Evidence) | NotLoaded(error: string)
  datatype Config = Config(fetchEnabled: bool, refresh: bool, maxRequests: int)

  const BUDGET := "REQUEST_BUDGET_EXHAUSTED"
  const INVALID := "INVALID_CACHE_USE_REFRESH"
  const PAGES := 5

  // --- File names ---

  function SymbolName(s: Symbol): (n: string)
    ensures |n| == 3
  {
    match s case SPY => "SPY" case QQQ => "QQQ" case DIA => "DIA" case IWM => "IWM" case RSP => "RSP"
  }

  function KindName(k: Kind): string { match k case DAILY => "daily" case SPLITS => "splits" }

  function KeyOf(r: Request): string {
    "v1-" + SymbolName(r.symbol) + "-" + KindName(r.kind) + "-" + r.from + "-" + r.to
  }

  /** Both ends are calendar dates, written with ten characters. */
  predicate Dated(r: Request) { |r.from| == 10 && |r.to| == 10 }

  /** The name of the file, symbol by symbol. */
  lemma KeysAreNamed(r: Request)
    ensures var prefix :=
              match (r.symbol, r.kind)
              case (SPY, DAILY) => "v1-SPY-daily-" case (SPY, SPLITS) => "v1-SPY-splits-"
              case (QQQ, DAILY) => "v1-QQQ-daily-" case (QQQ, SPLITS) => "v1-QQQ-splits-"
              case (DIA, DAILY) => "v1-DIA-daily-" case (DIA, SPLITS) => "v1-DIA-splits-"
              case (IWM, DAILY) => "v1-IWM-daily-" case (IWM, SPLITS) => "v1-IWM-splits-"
              case (RSP, DAILY) => "v1-RSP-daily-" case (RSP, SPLITS) => "v1-RSP-splits-";
            KeyOf(r) == prefix + r.from + "-" + r.to
  {
    var name := "v1-" + SymbolName(r.symbol) + "-" + KindName(r.kind) + "-";
    assert r.kind == DAILY ==> name == "v1-" + SymbolName(r.symbol) + "-daily-";
    assert r.kind == SPLITS ==> name == "v1-" + SymbolName(r.symbol) + "-splits-";
    match r.symbol case SPY => case QQQ => case DIA => case IWM => case RSP =>
  }

  /** Different dated requests never share a file. */
  lemma KeysAreDistinct(a: Request, b: Request)
    requires Dated(a) && Dated(b) && KeyOf(a) == KeyOf(b)
    ensures a == b
  {
    var x, y := KeyOf(a), KeyOf(b);
    assert x[3..6] == SymbolName(a.symbol) && y[3..6] == SymbolName(b.symbol);
    assert SymbolName(a.symbol)[..1] == x[3..4] && SymbolName(b.symbol)[..1] == y[3..4];
    assert a.symbol == b.symbol;
    assert |x| == 3 + 3 + 1 + |KindName(a.kind)| + 1 + 10 + 1 + 10;
    assert |y| == 3 + 3 + 1 + |KindName(b.kind)| + 1 + 10 + 1 + 10;
    assert a.kind == b.kind;
    var n := |x|;
    assert x[n - 10..] == a.to && y[n - 10..] == b.to;
    assert x[n - 21..n - 11] == a.from && y[n - 21..n - 11] == b.from;
  }

  // --- Messages that may be kept ---

  predicate Shouted(m: string) {
    m != "" && forall i | 0 <= i < |m| :: 'A' <= m[i] <= 'Z' || m[i] == '_'
  }

  const HTTP := "Massive evidence: request returned HTTP "
  const OUTSIDE := " (requested history is outside the Massive subscription entitlement)"

  predicate TransportMessage(m: string) {
    || m == "Massive evidence: request failed or timed out"
    || (|m| >= |HTTP| + 3 && m[..|HTTP|] == HTTP
        && (forall i | |HTTP| <= i < |HTTP| + 3 :: '0' <= m[i] <= '9')
        && (m[|HTTP| + 3..] == "" || m[|HTTP| + 3..] == OUTSIDE))
  }

  function Sanitized(m: string): string {
    if Shouted(m) || TransportMessage(m) then m else "PROVIDER_EVIDENCE_FAILURE"
  }

  // --- Pagination ---

  datatype Fetched = Fetched(result: Result<Evidence, string>, requests: nat)

  function Finish(p: Provider, r: Request, pages: Evidence): Result<Evidence, string> {
    var error := p.evidenceError(r, pages);
    if error.Some? then Failure(error.value) else Success(pages)
  }

  /** Follow the links from `next`; `seen` are the endpoints already asked for. No budget. */
  function Follow(p: Provider, r: Request, next: string, seen: seq<string>, pages: Evidence): (f: Fetched)
    ensures f.requests + |seen| <= PAGES || f.requests == 0
    decreases PAGES - |seen|
  {
    if next in seen || |seen| >= PAGES then Fetched(Failure("PAGINATION_LOOP_OR_LIMIT"), 0)
    else
      var reply := p.transport(next);
      if reply.Failure? then Fetched(Failure(reply.error), 1)
      else
        var page := reply.value;
        if p.rowsError(page).Some? then Fetched(Failure(p.rowsError(page).value), 1)
        else
          var pages' := pages + [p.retain(r, page)];
          var link := p.advance(r, page);
          if link.Failure? then Fetched(Failure(link.error), 1)
          else if link.value.None? then Fetched(Finish(p, r, pages'), 1)
          else
            var rest := Follow(p, r, link.value.value, seen + [next], pages');
            Fetched(rest.result, 1 + rest.requests)
  }

  /** What the provider has to say about a request when nothing limits the asking. */
  function Unlimited(p: Provider, r: Request): Fetched { Follow(p, r, p.initial(r), [], []) }

  function StoredOf(p: Provider, result: Result<Evidence, string>): Stored {
    match result
    case Success(evidence) => Ok(evidence, p.digest(evidence))
    case Failure(message) => Error(Sanitized(message))
  }

  function Reported(s: Stored): CacheResult {
    match s case Ok(evidence, _) => Loaded(evidence) case Error(error) => NotLoaded(error)
  }

  /** The whole answer to a request, and the file that holds it. */
  function Answer(p: Provider, r: Request): Stored { StoredOf(p, Unlimited(p, r).result) }

  function FileOf(p: Provider, r: Request): File { Envelope(1, KeyOf(r), Answer(p, r)) }

  // --- The cache ---

  class Disk {
    var files: map<string, File>
    constructor ()
      ensures files == map[]
    {
      files := map[];
    }
  }

  predicate Readable(p: Provider, key: string, f: File) {
    && f.Envelope? && f.version == 1 && f.key == key
    && (f.result.Ok? ==> f.result.digest == p.digest(f.result.evidence))
  }

  datatype State = State(files: map<string, File>, requests: nat, hits: nat)

  function Budget(c: Config, s: State): nat {
    if c.maxRequests > s.requests then c.maxRequests - s.requests else 0
  }

  /** The outcome of asking with `budget` requests left. */
  function Limited(p: Provider, r: Request, budget: nat): Fetched {
    var full := Unlimited(p, r);
    if full.requests <= budget then full else Fetched(Failure(BUDGET), budget)
  }

  /** One load, as a function of what the cache and the disk held before. */
  function LoadStep(p: Provider, c: Config, s: State, r: Request): (State, CacheResult) {
    var key := KeyOf(r);
    if !c.refresh && key in s.files then
      if Readable(p, key, s.files[key]) then (s.(hits := s.hits + 1), Reported(s.files[key].result))
      else (s, NotLoaded(INVALID))
    else if !c.fetchEnabled then (s, NotLoaded("NOT_CACHED"))
    else if s.requests >= c.maxRequests then (s, NotLoaded(BUDGET))
    else
      var f := Limited(p, r, Budget(c, s));
      var stored := StoredOf(p, f.result);
      var asked := s.(requests := s.requests + f.requests);
      if stored == Error(BUDGET) then (asked, NotLoaded(BUDGET))
      else (asked.(files := s.files[key := Envelope(1, key, stored)]), Reported(stored))
  }

  /** Configurations that the constructor does not reject. */
  predicate AcceptedConfig(c: Config) { (c.refresh ==> c.fetchEnabled) && 1 <= c.maxRequests <= 300 }

  // --- The law of a fetch ---

  /** The endpoints asked, the page each gave, and at the end the endpoint that comes next: the first one is the
      initial one, every page passes, each page leads to the next endpoint, and none was asked twice. */
  ghost predicate Asked(p: Provider, r: Request, ends: seq<string>, pages: seq<Page>) {
    && |ends| == |pages| + 1 <= 6 && ends[0] == p.initial(r)
    && (forall j: nat | j < |pages| :: LeadsOn(p, r, ends[j], pages[j], ends[j + 1]))
    && forall i: nat, j: nat | i < j < |pages| :: ends[i] != ends[j]
  }

  ghost predicate LeadsOn(p: Provider, r: Request, end: string, page: Page, next: string) {
    p.transport(end) == Success(page) && p.rowsError(page).None? && p.advance(r, page) == Success(Some(next))
  }

  /** The evidence is what is retained of the pages, in their order. */
  ghost predicate Retains(p: Provider, r: Request, pages: seq<Page>, evidence: Evidence) {
    |evidence| == |pages| && forall j: nat | j < |pages| :: evidence[j] == p.retain(r, pages[j])
  }

  /** The endpoint gives its last page: no error, no successor, and evidence of all pages without an error. */
  ghost predicate Completes(p: Provider, r: Request, end: string, pages: seq<Page>, evidence: Evidence) {
    exists last :: p.transport(end) == Success(last) && p.rowsError(last).None? && p.advance(r, last) == Success(None)
                   && Retains(p, r, pages + [last], evidence) && p.evidenceError(r, evidence).None?
  }

  /** The endpoint is asked and fails: no page, a page with bad rows, a bad link, or the evidence is refused. */
  ghost predicate Fails(p: Provider, r: Request, end: string, pages: seq<Page>, message: string) {
    || p.transport(end) == Failure(message)
    || exists page :: p.transport(end) == Success(page)
         && (|| p.rowsError(page) == Some(message)
             || (p.rowsError(page).None? && p.advance(r, page) == Failure(message))
             || (p.rowsError(page).None? && p.advance(r, page) == Success(None)
                 && exists evidence :: Retains(p, r, pages + [page], evidence)
                                       && p.evidenceError(r, evidence) == Some(message)))
  }

  /** How a fetch ends after `pages` led to the endpoint `end`: before asking it where it was asked already or five
      were, or where the budget is spent; otherwise by asking it. */
  ghost predicate Stops(p: Provider, r: Request, budget: nat, ends: seq<string>, pages: seq<Page>,
                        result: Result<Evidence, string>, requests: nat)
    requires |ends| == |pages| + 1
  {
    var n, end := |pages|, ends[|pages|];
    if end in ends[..n] || n == 5 then requests == n && result == Failure("PAGINATION_LOOP_OR_LIMIT")
    else if n == budget then requests == n && result == Failure("REQUEST_BUDGET_EXHAUSTED")
    else requests == n + 1
         && match result
            case Success(evidence) => Completes(p, r, end, pages, evidence)
            case Failure(message) => Fails(p, r, end, pages, message)
  }

  /** A fetch with `budget` requests left gives `result` after `requests` of them. */
  ghost predicate FetchLaw(p: Provider, r: Request, budget: nat, result: Result<Evidence, string>, requests: nat) {
    exists ends, pages :: FetchedAlong(p, r, budget, result, requests, ends, pages)
  }

  ghost predicate FetchedAlong(p: Provider, r: Request, budget: nat, result: Result<Evidence, string>, requests: nat,
                               ends: seq<string>, pages: seq<Page>)
  {
    Asked(p, r, ends, pages) && |pages| <= budget && Stops(p, r, budget, ends, pages, result, requests)
  }

  lemma AskedOneMore(p: Provider, r: Request, ends: seq<string>, pages: seq<Page>, page: Page, next: string)
    requires Asked(p, r, ends, pages) && |pages| < 5 && ends[|pages|] !in ends[..|pages|]
    requires LeadsOn(p, r, ends[|pages|], page, next)
    ensures Asked(p, r, ends + [next], pages + [page])
    ensures (ends + [next])[..|pages| + 1] == ends[..|pages|] + [ends[|pages|]]
  {
    var more := ends + [next];
    forall i: nat, j: nat | i < j < |pages| + 1 ensures more[i] != more[j] {
      assert i < |pages| && ends[i] in ends[..|pages|];
    }
  }

  /** What the recursion finds from the endpoint that comes next. */
  lemma {:induction false} FollowIsLawful(p: Provider, r: Request, budget: nat, ends: seq<string>, pages: seq<Page>,
                                          kept: Evidence)
    requires Asked(p, r, ends, pages) && |pages| <= budget && Retains(p, r, pages, kept)
    ensures var n := |pages|;
            var f := Follow(p, r, ends[n], ends[..n], kept);
            if n + f.requests <= budget then FetchLaw(p, r, budget, f.result, n + f.requests)
            else FetchLaw(p, r, budget, Failure(BUDGET), budget)
    decreases 5 - |pages|
  {
    var n, end := |pages|, ends[|pages|];
    var f := Follow(p, r, end, ends[..n], kept);
    if end in ends[..n] || n == 5 {
      assert FetchedAlong(p, r, budget, f.result, n, ends, pages);
    } else if n == budget {
      assert FetchedAlong(p, r, budget, Failure(BUDGET), n, ends, pages);
    } else if GoesOn(p, r, end) {
      var page := p.transport(end).value;
      var next := p.advance(r, page).value.value;
      AskedOneMore(p, r, ends, pages, page, next);
      FollowIsLawful(p, r, budget, ends + [next], pages + [page], kept + [p.retain(r, page)]);
    } else {
      assert f.requests == 1 && Stops(p, r, budget, ends, pages, f.result, n + 1) by {
        LastStepStops(p, r, budget, ends, pages, kept);
      }
      assert FetchedAlong(p, r, budget, f.result, n + 1, ends, pages);
    }
  }

  predicate GoesOn(p: Provider, r: Request, end: string) {
    var reply := p.transport(end);
    reply.Success? && p.rowsError(reply.value).None?
    && p.advance(r, reply.value).Success? && p.advance(r, reply.value).value.Some?
  }

  lemma LastStepStops(p: Provider, r: Request, budget: nat, ends: seq<string>, pages: seq<Page>, kept: Evidence)
    requires |ends| == |pages| + 1 && Retains(p, r, pages, kept)
    requires ends[|pages|] !in ends[..|pages|] && |pages| < 5 && |pages| < budget && !GoesOn(p, r, ends[|pages|])
    ensures var f := Follow(p, r, ends[|pages|], ends[..|pages|], kept);
            f.requests == 1 && Stops(p, r, budget, ends, pages, f.result, |pages| + 1)
  {
    var reply := p.transport(ends[|pages|]);
    if reply.Success? {
      assert Retains(p, r, pages + [reply.value], kept + [p.retain(r, reply.value)]);
    }
  }

  /** A fetch of any budget obeys the law. */
  lemma LimitedIsLawful(p: Provider, r: Request, budget: nat)
    ensures FetchLaw(p, r, budget, Limited(p, r, budget).result, Limited(p, r, budget).requests)
  {
    FollowIsLawful(p, r, budget, [p.initial(r)], [], []);
  }

  lemma RetainsOnce(p: Provider, r: Request, pages: seq<Page>, a: Evidence, b: Evidence)
    requires Retains(p, r, pages, a) && Retains(p, r, pages, b)
    ensures a == b
  {
  }

  lemma {:induction false} SamePath(p: Provider, r: Request, ends: seq<string>, pages: seq<Page>, ends': seq<string>,
                                    pages': seq<Page>, n: nat)
    requires Asked(p, r, ends, pages) && Asked(p, r, ends', pages') && n <= |pages| && n <= |pages'|
    ensures ends[..n + 1] == ends'[..n + 1] && pages[..n] == pages'[..n]
  {
    if n > 0 {
      SamePath(p, r, ends, pages, ends', pages', n - 1);
      assert ends[n - 1] == ends[..n][n - 1] == ends'[..n][n - 1] == ends'[n - 1];
      assert LeadsOn(p, r, ends[n - 1], pages[n - 1], ends[n]) && LeadsOn(p, r, ends'[n - 1], pages'[n - 1], ends'[n]);
      assert ends[..n + 1] == ends[..n] + [ends[n]] && ends'[..n + 1] == ends'[..n] + [ends'[n]];
      assert pages[..n] == pages[..n - 1] + [pages[n - 1]] && pages'[..n] == pages'[..n - 1] + [pages'[n - 1]];
    }
  }

  lemma StopsOnce(p: Provider, r: Request, budget: nat, ends: seq<string>, pages: seq<Page>,
                  a: Result<Evidence, string>, m: nat, b: Result<Evidence, string>, n: nat)
    requires |ends| == |pages| + 1
    requires Stops(p, r, budget, ends, pages, a, m) && Stops(p, r, budget, ends, pages, b, n)
    ensures a == b && m == n
  {
    var reply := p.transport(ends[|pages|]);
    if reply.Success? {
      var all := pages + [reply.value];
      forall e, e' | Retains(p, r, all, e) && Retains(p, r, all, e') ensures e == e' {
        RetainsOnce(p, r, all, e, e');
      }
    }
  }

  /** Along a path nothing stops a fetch before its end. */
  lemma PathGoesOn(p: Provider, r: Request, budget: nat, ends: seq<string>, pages: seq<Page>, k: nat,
                   result: Result<Evidence, string>, requests: nat)
    requires Asked(p, r, ends, pages) && k < |pages| <= budget
    ensures !Stops(p, r, budget, ends[..k + 1], pages[..k], result, requests)
  {
    assert LeadsOn(p, r, ends[k], pages[k], ends[k + 1]);
    assert ends[..k + 1][..k] == ends[..k] && ends[k] !in ends[..k];
  }

  lemma PathsEndTogether(p: Provider, r: Request, budget: nat, a: Result<Evidence, string>, m: nat, ends: seq<string>,
                         pages: seq<Page>, b: Result<Evidence, string>, n: nat, ends': seq<string>, pages': seq<Page>)
    requires FetchedAlong(p, r, budget, a, m, ends, pages) && FetchedAlong(p, r, budget, b, n, ends', pages')
    requires |pages| <= |pages'|
    ensures ends == ends' && pages == pages'
  {
    var k := |pages|;
    SamePath(p, r, ends, pages, ends', pages', k);
    assert ends[k] == ends[..k + 1][k] == ends'[..k + 1][k] == ends'[k];
    assert ends[..k] == ends[..k + 1][..k] && ends'[..k] == ends'[..k + 1][..k];
    assert ends[..k + 1] == ends && pages[..k] == pages;
    if k < |pages'| {
      PathGoesOn(p, r, budget, ends', pages', k, a, m);
    } else {
      assert ends[..k + 1] == ends && ends'[..k + 1] == ends' && pages[..k] == pages && pages'[..k] == pages';
    }
  }

  /** The law leaves one result and one number of requests, so each of its cases is also an if-and-only-if. */
  lemma FetchLawOnce(p: Provider, r: Request, budget: nat, a: Result<Evidence, string>, m: nat,
                     b: Result<Evidence, string>, n: nat)
    requires FetchLaw(p, r, budget, a, m) && FetchLaw(p, r, budget, b, n)
    ensures a == b && m == n
  {
    var ends, pages :| FetchedAlong(p, r, budget, a, m, ends, pages);
    var ends', pages' :| FetchedAlong(p, r, budget, b, n, ends', pages');
    if |pages| <= |pages'| {
      PathsEndTogether(p, r, budget, a, m, ends, pages, b, n, ends', pages');
    } else {
      PathsEndTogether(p, r, budget, b, n, ends', pages', a, m, ends, pages);
    }
    StopsOnce(p, r, budget, ends, pages, a, m, b, n);
  }

  /** The evidence of a successful fetch, page by page. */
  ghost predicate WholeEvidence(p: Provider, r: Request, evidence: Evidence, requests: nat) {
    exists ends, pages :: WholeAlong(p, r, evidence, requests, ends, pages)
  }

  ghost predicate WholeAlong(p: Provider, r: Request, evidence: Evidence, n: nat, ends: seq<string>, pages: seq<Page>) {
    && |ends| == |pages| == n && 1 <= n <= 5 && ends[0] == p.initial(r)
    && (forall i: nat, j: nat | i < j < n :: ends[i] != ends[j])
    && (forall j: nat | j < n - 1 :: LeadsOn(p, r, ends[j], pages[j], ends[j + 1]))
    && p.transport(ends[n - 1]) == Success(pages[n - 1]) && p.rowsError(pages[n - 1]).None?
    && p.advance(r, pages[n - 1]) == Success(None)
    && Retains(p, r, pages, evidence) && p.evidenceError(r, evidence).None?
  }

  /** A fetch succeeds exactly with whole evidence that the budget allows. */
  lemma SuccessMeansWholeEvidence(p: Provider, r: Request, budget: nat, evidence: Evidence, requests: nat)
    ensures FetchLaw(p, r, budget, Success(evidence), requests) <==>
              WholeEvidence(p, r, evidence, requests) && requests <= budget
  {
    if FetchLaw(p, r, budget, Success(evidence), requests) {
      var ends, pages :| FetchedAlong(p, r, budget, Success(evidence), requests, ends, pages);
      var last :| p.transport(ends[|pages|]) == Success(last) && p.rowsError(last).None?
                  && p.advance(r, last) == Success(None) && Retains(p, r, pages + [last], evidence);
      WholeFromPath(p, r, evidence, ends, pages, last);
    }
    if WholeEvidence(p, r, evidence, requests) && requests <= budget {
      var ends, pages :| WholeAlong(p, r, evidence, requests, ends, pages);
      PathFromWhole(p, r, budget, evidence, requests, ends, pages);
    }
  }

  lemma PathFromWhole(p: Provider, r: Request, budget: nat, evidence: Evidence, n: nat, ends: seq<string>,
                      pages: seq<Page>)
    requires WholeAlong(p, r, evidence, n, ends, pages) && n <= budget
    ensures FetchLaw(p, r, budget, Success(evidence), n)
  {
    var init := pages[..n - 1];
    assert init + [pages[n - 1]] == pages;
    assert Asked(p, r, ends, init);
    assert ends[n - 1] !in ends[..n - 1];
    assert Completes(p, r, ends[n - 1], init, evidence);
    assert FetchedAlong(p, r, budget, Success(evidence), n, ends, init);
  }

  lemma WholeFromPath(p: Provider, r: Request, evidence: Evidence, ends: seq<string>, pages: seq<Page>, last: Page)
    requires Asked(p, r, ends, pages) && |pages| < 5 && ends[|pages|] !in ends[..|pages|]
    requires p.transport(ends[|pages|]) == Success(last) && p.rowsError(last).None?
    requires p.advance(r, last) == Success(None)
    requires Retains(p, r, pages + [last], evidence) && p.evidenceError(r, evidence).None?
    ensures WholeEvidence(p, r, evidence, |pages| + 1)
  {
    var all, n := pages + [last], |pages|;
    forall i: nat, j: nat | i < j < n + 1 ensures ends[i] != ends[j] {
      assert i < n && ends[i] in ends[..n];
    }
    forall j: nat | j < n ensures LeadsOn(p, r, ends[j], all[j], ends[j + 1]) {
      assert LeadsOn(p, r, ends[j], pages[j], ends[j + 1]);
    }
    assert WholeAlong(p, r, evidence, n + 1, ends, all);
  }

  // --- The law of a load ---

  predicate Digit(c: char) { '0' <= c <= '9' }

  /** A message in capitals and underscores, or one of the three that the transport words itself. */
  ghost predicate MayBeKept(m: string) {
    || (m != "" && forall c | c in m :: c == '_' || 'A' <= c <= 'Z')
    || m == "Massive evidence: request failed or timed out"
    || exists a, b, c | Digit(a) && Digit(b) && Digit(c) ::
         || m == "Massive evidence: request returned HTTP " + [a, b, c]
         || m == "Massive evidence: request returned HTTP " + [a, b, c]
                 + " (requested history is outside the Massive subscription entitlement)"
  }

  /** What the file of a result holds. */
  ghost predicate StoredLaw(p: Provider, result: Result<Evidence, string>, stored: Stored) {
    match result
    case Success(evidence) => stored == Ok(evidence, p.digest(evidence))
    case Failure(m) => if MayBeKept(m) then stored == Error(m) else stored == Error("PROVIDER_EVIDENCE_FAILURE")
  }

  lemma HttpMessage(m: string)
    ensures TransportMessage(m) && m != "Massive evidence: request failed or timed out" <==>
      exists a, b, c | Digit(a) && Digit(b) && Digit(c) ::
        || m == "Massive evidence: request returned HTTP " + [a, b, c]
        || m == "Massive evidence: request returned HTTP " + [a, b, c]
                + " (requested history is outside the Massive subscription entitlement)"
  {
    var n := |HTTP|;
    if |m| >= n + 3 && m[..n] == HTTP && Digit(m[n]) && Digit(m[n + 1]) && Digit(m[n + 2]) {
      assert m == HTTP + [m[n], m[n + 1], m[n + 2]] + m[n + 3..];
    }
    forall a, b, c | Digit(a) && Digit(b) && Digit(c) && m[..] == HTTP + [a, b, c] ensures TransportMessage(m) {
      assert m[n + 3..] == "";
    }
    forall a, b, c | Digit(a) && Digit(b) && Digit(c) && m == HTTP + [a, b, c] + OUTSIDE ensures TransportMessage(m) {
      assert m[n + 3..] == OUTSIDE && m[..n] == HTTP;
    }
  }

  lemma StoredIsLawful(p: Provider, result: Result<Evidence, string>)
    ensures StoredLaw(p, result, StoredOf(p, result))
  {
    if result.Failure? {
      HttpMessage(result.error);
      assert forall i | 0 <= i < |result.error| :: result.error[i] in result.error;
    }
  }

  /** A fetch that takes place: evidence and refusals are filed under the key, an exhausted budget is not. */
  ghost predicate FetchedLaw(p: Provider, c: Config, s: State, r: Request, after: State, answer: CacheResult,
                             result: Result<Evidence, string>, stored: Stored)
  {
    && s.requests <= after.requests && s.requests <= c.maxRequests && after.hits == s.hits
    && FetchLaw(p, r, c.maxRequests - s.requests, result, after.requests - s.requests) && StoredLaw(p, result, stored)
    && (stored == Error("REQUEST_BUDGET_EXHAUSTED") ==> after.files == s.files)
    && (stored != Error("REQUEST_BUDGET_EXHAUSTED") ==>
          after.files == s.files[KeyOf(r) := Envelope(1, KeyOf(r), stored)])
    && (stored.Ok? ==> answer == Loaded(stored.evidence)) && (stored.Error? ==> answer == NotLoaded(stored.error))
  }

  /** A load: the file under its key if there is one and no refresh, refused unless it is one of the two envelopes of
      version 1 under this key; otherwise a fetch, where fetching is allowed and a request is left. */
  ghost predicate LoadLaw(p: Provider, c: Config, s: State, r: Request, after: State, answer: CacheResult) {
    var key := KeyOf(r);
    if key in s.files && !c.refresh then
      var hit := State(s.files, s.requests, s.hits + 1);
      match s.files[key]
      case Envelope(1, k, Ok(e, d)) =>
        if k == key && d == p.digest(e) then after == hit && answer == Loaded(e)
        else after == s && answer == NotLoaded("INVALID_CACHE_USE_REFRESH")
      case Envelope(1, k, Error(m)) =>
        if k == key then after == hit && answer == NotLoaded(m)
        else after == s && answer == NotLoaded("INVALID_CACHE_USE_REFRESH")
      case _ => after == s && answer == NotLoaded("INVALID_CACHE_USE_REFRESH")
    else if !c.fetchEnabled then after == s && answer == NotLoaded("NOT_CACHED")
    else if s.requests >= c.maxRequests then after == s && answer == NotLoaded("REQUEST_BUDGET_EXHAUSTED")
    else AsksLaw(p, c, s, r, after, answer)
  }

  ghost predicate AsksLaw(p: Provider, c: Config, s: State, r: Request, after: State, answer: CacheResult) {
    exists result, stored :: FetchedLaw(p, c, s, r, after, answer, result, stored)
  }

  lemma FetchIsFiled(p: Provider, c: Config, s: State, r: Request)
    requires (c.refresh || KeyOf(r) !in s.files) && c.fetchEnabled && s.requests < c.maxRequests
    ensures var (after, answer) := LoadStep(p, c, s, r); AsksLaw(p, c, s, r, after, answer)
  {
    var (after, answer) := LoadStep(p, c, s, r);
    var f := Limited(p, r, Budget(c, s));
    LimitedIsLawful(p, r, Budget(c, s));
    StoredIsLawful(p, f.result);
    assert FetchedLaw(p, c, s, r, after, answer, f.result, StoredOf(p, f.result));
  }

  lemma LoadIsLawful(p: Provider, c: Config, s: State, r: Request)
    ensures var (after, answer) := LoadStep(p, c, s, r); LoadLaw(p, c, s, r, after, answer)
  {
    var key := KeyOf(r);
    if key in s.files && !c.refresh {
      if Readable(p, key, s.files[key]) {
        assert s.files[key] == Envelope(1, key, s.files[key].result);
      }
    } else if c.fetchEnabled && s.requests < c.maxRequests {
      FetchIsFiled(p, c, s, r);
    }
  }

  /** The whole answer that sound disks hold: what an unlimited fetch gives, which never takes more than five. */
  lemma AnswerIsLawful(p: Provider, r: Request)
    ensures var full := Unlimited(p, r);
            full.requests <= 5 && FetchLaw(p, r, 5, full.result, full.requests)
            && StoredLaw(p, full.result, Answer(p, r))
            && FileOf(p, r) == Envelope(1, KeyOf(r), Answer(p, r))
  {
    LimitedIsLawful(p, r, 5);
    StoredIsLawful(p, Unlimited(p, r).result);
  }

  class ParticipationCache {
    const disk: Disk
    const provider: Provider
    const config: Config
    var requests: nat
    var hits: nat

    ghost function View(): State
      reads this, disk
    {
      State(disk.files, requests, hits)
    }

    constructor (disk: Disk, provider: Provider, config: Config)
      requires AcceptedConfig(config)
      ensures this.disk == disk && this.provider == provider && this.config == config && requests == 0 && hits == 0
    {
      this.disk := disk;
      this.provider := provider;
      this.config := config;
      requests, hits := 0, 0;
    }

    /** The pagination loop; every page costs one request of the budget. */
    method FetchEvidence(r: Request) returns (result: Result<Evidence, string>)
      requires requests < config.maxRequests
      modifies this`requests
      ensures var f := Limited(provider, r, config.maxRequests - old(requests));
              result == f.result && requests == old(requests) + f.requests
      ensures requests >= old(requests)
              && FetchLaw(provider, r, config.maxRequests - old(requests), result, requests - old(requests))
    {
      LimitedIsLawful(provider, r, config.maxRequests - requests);
      var next := provider.initial(r);
      var seen: seq<string>, pages: Evidence := [], [];
      ghost var full := Unlimited(provider, r);
      while true
        invariant |seen| <= PAGES && requests == old(requests) + |seen| && requests <= config.maxRequests
        invariant full == Fetched(Follow(provider, r, next, seen, pages).result,
                                  |seen| + Follow(provider, r, next, seen, pages).requests)
        decreases PAGES - |seen|
      {
        if next in seen || |seen| >= PAGES {
          return Failure("PAGINATION_LOOP_OR_LIMIT");
        }
        if requests >= config.maxRequests {
          return Failure(BUDGET);
        }
        requests := requests + 1;
        var reply := provider.transport(next);
        if reply.Failure? {
          return Failure(reply.error);
        }
        var page := reply.value;
        if provider.rowsError(page).Some? {
          return Failure(provider.rowsError(page).value);
        }
        pages := pages + [provider.retain(r, page)];
        var link := provider.advance(r, page);
        if link.Failure? {
          return Failure(link.error);
        }
        if link.value.None? {
          return Finish(provider, r, pages);
        }
        seen := seen + [next];
        next := link.value.value;
      }
    }

    method Load(r: Request) returns (result: CacheResult)
      modifies this, disk
      ensures (View(), result) == LoadStep(provider, config, old(View()), r)
      ensures LoadLaw(provider, config, old(View()), r, View(), result)
    {
      LoadIsLawful(provider, config, View(), r);
      var key := KeyOf(r);
      if !config.refresh && key in disk.files {
        var file := disk.files[key];
        if !Readable(provider, key, file) {
          return NotLoaded(INVALID);
        }
        hits := hits + 1;
        return Reported(file.result);
      }
      if !config.fetchEnabled {
        return NotLoaded("NOT_CACHED");
      }
      if requests >= config.maxRequests {
        return NotLoaded(BUDGET);
      }
      ghost var before := View();
      var fetched := FetchEvidence(r);
      assert config.maxRequests - before.requests == Budget(config, before);
      var stored := StoredOf(provider, fetched);
      ghost var f := Limited(provider, r, Budget(config, before));
      assert stored == StoredOf(provider, f.result) && requests == before.requests + f.requests;
      if stored == Error(BUDGET) {
        return NotLoaded(BUDGET);
      }
      disk.files := disk.files[key := Envelope(1, key, stored)];
      return Reported(stored);
    }
  }

  /** Opening a cache: a refresh without fetching, or a budget outside 1..300, is refused. */
  method OpenCache(disk: Disk, provider: Provider, config: Config)
    returns (result: Result<ParticipationCache, string>)
    ensures result.Success? <==> AcceptedConfig(config)
    ensures result.Success? ==> (result.value.disk == disk && result.value.provider == provider
                                 && result.value.config == config && fresh(result.value)
                                 && result.value.View() == State(disk.files, 0, 0))
    ensures result.Failure? ==> result.error == (if config.refresh && !config.fetchEnabled then
                                                   "--refresh requires --fetch."
                                                 else "Request budget must be 1..300.")
  {
    if config.refresh && !config.fetchEnabled {
      return Failure("--refresh requires --fetch.");
    }
    if config.maxRequests < 1 || config.maxRequests > 300 {
      return Failure("Request budget must be 1..300.");
    }
    var cache := new ParticipationCache(disk, provider, config);
    return Success(cache);
  }

  // --- Soundness ---

  /** Every file that belongs to a dated request holds the provider's whole answer to it. */
  ghost predicate SoundFiles(p: Provider, files: map<string, File>) {
    forall r: Request {:trigger KeyOf(r)} | Dated(r) && KeyOf(r) in files :: files[KeyOf(r)] == FileOf(p, r)
  }

  /** The provider's answer, or one of the two admissions that nothing was asked to the end. */
  predicate Honest(p: Provider, r: Request, result: CacheResult) {
    result == Reported(Answer(p, r)) || result == NotLoaded("NOT_CACHED") || result == NotLoaded(BUDGET)
  }

  /** A fetch that the budget cuts short is never mistaken for an answer. */
  lemma CutShortIsBudget(p: Provider, r: Request, budget: nat)
    ensures StoredOf(p, Limited(p, r, budget).result)
            == if Unlimited(p, r).requests <= budget then Answer(p, r) else Error(BUDGET)
    ensures Limited(p, r, budget).requests <= budget
  {
    assert Shouted(BUDGET);
  }

  /** One load keeps the disk sound and the budget respected, forgets no file, and answers honestly. */
  lemma LoadIsSound(p: Provider, c: Config, s: State, r: Request)
    requires SoundFiles(p, s.files) && s.requests <= c.maxRequests && Dated(r)
    ensures var (after, result) := LoadStep(p, c, s, r);
            && SoundFiles(p, after.files) && Honest(p, r, result)
            && s.requests <= after.requests <= c.maxRequests
            && (forall k | k in s.files :: k in after.files)
            && after.files.Keys <= s.files.Keys + {KeyOf(r)}
  {
    CutShortIsBudget(p, r, Budget(c, s));
    var (after, result) := LoadStep(p, c, s, r);
    forall q: Request | Dated(q) && KeyOf(q) in after.files
      ensures after.files[KeyOf(q)] == FileOf(p, q)
    {
      if KeyOf(q) == KeyOf(r) {
        KeysAreDistinct(q, r);
      }
    }
  }

  /** A process opens the cache with a configuration and loads its requests in order. */
  datatype Session = Session(config: Config, loads: seq<Request>)

  function LoadAll(p: Provider, c: Config, s: State, loads: seq<Request>): (r: (State, seq<CacheResult>))
    ensures |r.1| == |loads|
    decreases |loads|
  {
    if loads == [] then (s, [])
    else
      var (first, result) := LoadStep(p, c, s, loads[0]);
      var (rest, results) := LoadAll(p, c, first, loads[1..]);
      (rest, [result] + results)
  }

  lemma {:induction false} LoadsAreSound(p: Provider, c: Config, s: State, loads: seq<Request>)
    requires SoundFiles(p, s.files) && s.requests <= c.maxRequests && forall r | r in loads :: Dated(r)
    ensures var (after, results) := LoadAll(p, c, s, loads);
            && SoundFiles(p, after.files) && after.requests <= c.maxRequests
            && (forall k | k in s.files :: k in after.files)
            && forall i | 0 <= i < |loads| :: Honest(p, loads[i], results[i])
    decreases |loads|
  {
    if loads != [] {
      LoadIsSound(p, c, s, loads[0]);
      LoadsAreSound(p, c, LoadStep(p, c, s, loads[0]).0, loads[1..]);
      var (after, results) := LoadAll(p, c, s, loads);
      forall i | 0 <= i < |loads|
        ensures Honest(p, loads[i], results[i])
      {
        if i > 0 {
          assert loads[i] == loads[1..][i - 1];
        }
      }
    }
  }

  /** Sessions follow one another over the same disk; each starts with fresh counters. */
  function Sessions(p: Provider, files: map<string, File>, sessions: seq<Session>)
    : (r: (map<string, File>, seq<(State, seq<CacheResult>)>))
    ensures |r.1| == |sessions|
    decreases |sessions|
  {
    if sessions == [] then (files, [])
    else
      var ended := LoadAll(p, sessions[0].config, State(files, 0, 0), sessions[0].loads);
      var (rest, later) := Sessions(p, ended.0.files, sessions[1..]);
      (rest, [ended] + later)
  }

  ghost predicate ValidSession(s: Session) { AcceptedConfig(s.config) && forall r | r in s.loads :: Dated(r) }

  predicate SessionKept(p: Provider, s: Session, ended: (State, seq<CacheResult>)) {
    && ended.0.requests <= s.config.maxRequests && |ended.1| == |s.loads|
    && forall i | 0 <= i < |s.loads| :: Honest(p, s.loads[i], ended.1[i])
  }

  /** Over any history of sessions with any budgets, refreshes and offline runs: the disk never holds anything but
      the provider's whole answers, no session overspends, and no load says anything dishonest. */
  lemma {:induction false} HistoryIsSound(p: Provider, files: map<string, File>, sessions: seq<Session>)
    requires SoundFiles(p, files) && forall s | s in sessions :: ValidSession(s)
    ensures var (after, ends) := Sessions(p, files, sessions);
            && SoundFiles(p, after) && (forall k | k in files :: k in after)
            && forall i | 0 <= i < |sessions| :: SessionKept(p, sessions[i], ends[i])
    decreases |sessions|
  {
    if sessions != [] {
      var first := sessions[0];
      assert ValidSession(first);
      LoadsAreSound(p, first.config, State(files, 0, 0), first.loads);
      var ended := LoadAll(p, first.config, State(files, 0, 0), first.loads);
      assert SessionKept(p, first, ended);
      HistoryIsSound(p, ended.0.files, sessions[1..]);
      var (after, ends) := Sessions(p, files, sessions);
      forall i | 0 <= i < |sessions|
        ensures SessionKept(p, sessions[i], ends[i])
      {
        if i > 0 {
          assert sessions[i] == sessions[1..][i - 1];
        }
      }
    }
  }

  // --- Replay, exhaustion, corruption ---

  /** Once a file is there, any configuration without refresh answers from it and asks nobody. */
  lemma Replays(p: Provider, c: Config, s: State, r: Request)
    requires SoundFiles(p, s.files) && Dated(r) && KeyOf(r) in s.files && !c.refresh
    ensures LoadStep(p, c, s, r) == (s.(hits := s.hits + 1), Reported(Answer(p, r)))
  {
    assert s.files[KeyOf(r)] == FileOf(p, r);
  }

  /** Running out of budget leaves the disk as it was, so that a later session asks again. */
  lemma ExhaustionDoesNotPoison(p: Provider, c: Config, s: State, r: Request)
    requires c.refresh || KeyOf(r) !in s.files
    ensures var (after, result) := LoadStep(p, c, s, r);
            && (result == NotLoaded(BUDGET) ==> after.files == s.files)
            && (result != NotLoaded(BUDGET) && result != NotLoaded("NOT_CACHED") && c.maxRequests >= s.requests
                ==> after.files == s.files[KeyOf(r) := FileOf(p, r)])
  {
    CutShortIsBudget(p, r, Budget(c, s));
  }

  /** A fetch completes exactly when the answer fits in what is left of the budget. */
  lemma FetchCompletes(p: Provider, c: Config, s: State, r: Request)
    requires AcceptedConfig(c) && c.fetchEnabled && (c.refresh || KeyOf(r) !in s.files)
    requires s.requests <= c.maxRequests && Answer(p, r) != Error(BUDGET)
    ensures var (after, result) := LoadStep(p, c, s, r);
            if s.requests + Unlimited(p, r).requests <= c.maxRequests then
              && result == Reported(Answer(p, r)) && after.files == s.files[KeyOf(r) := FileOf(p, r)]
              && after.requests == s.requests + Unlimited(p, r).requests
            else result == NotLoaded(BUDGET) && after == s.(requests := c.maxRequests)
  {
    assert Shouted(BUDGET);
  }

  /** A file that was altered so that its digest no longer fits is refused, and nothing is asked or overwritten,
      until a refresh replaces it. */
  lemma TamperingIsRefused(p: Provider, c: Config, s: State, r: Request, forged: Evidence, genuine: Evidence)
    requires forall a: Evidence, b: Evidence :: p.digest(a) == p.digest(b) ==> a == b
    requires KeyOf(r) in s.files && forged != genuine
    requires s.files[KeyOf(r)] == Envelope(1, KeyOf(r), Ok(forged, p.digest(genuine)))
    ensures !c.refresh ==> LoadStep(p, c, s, r) == (s, NotLoaded(INVALID))
    ensures c.refresh && c.fetchEnabled && s.requests + PAGES <= c.maxRequests && Answer(p, r) != Error(BUDGET) ==>
              (LoadStep(p, c, s, r).0.files[KeyOf(r)] == FileOf(p, r))
  {
    CutShortIsBudget(p, r, Budget(c, s));
    if s.requests + PAGES <= c.maxRequests {
      assert Limited(p, r, Budget(c, s)) == Unlimited(p, r);
    }
  }

  // --- Progress over sessions ---

  /** How many of the loads have no file yet. */
  function Missing(files: map<string, File>, loads: seq<Request>): nat {
    if loads == [] then 0 else (if KeyOf(loads[0]) in files then 0 else 1) + Missing(files, loads[1..])
  }

  lemma {:induction false} MissingShrinks(before: map<string, File>, after: map<string, File>, loads: seq<Request>)
    requires forall k | k in before :: k in after
    ensures Missing(after, loads) <= Missing(before, loads)
    ensures (exists r :: r in loads && KeyOf(r) in after && KeyOf(r) !in before) ==>
              Missing(after, loads) < Missing(before, loads)
  {
    if loads != [] {
      MissingShrinks(before, after, loads[1..]);
    }
  }

  lemma LoadKeepsKeys(p: Provider, c: Config, s: State, r: Request)
    ensures forall k | k in s.files :: k in LoadStep(p, c, s, r).0.files
  {
  }

  lemma {:induction false} LoadsKeepKeys(p: Provider, c: Config, s: State, loads: seq<Request>)
    ensures forall k | k in s.files :: k in LoadAll(p, c, s, loads).0.files
    decreases |loads|
  {
    if loads != [] {
      LoadKeepsKeys(p, c, s, loads[0]);
      LoadsKeepKeys(p, c, LoadStep(p, c, s, loads[0]).0, loads[1..]);
    }
  }

  /** The load has its file already, or its whole answer fits into the budget of one session. */
  predicate Fileable(p: Provider, c: Config, files: map<string, File>, r: Request) {
    KeyOf(r) in files || (c.fetchEnabled && Unlimited(p, r).requests <= c.maxRequests && Answer(p, r) != Error(BUDGET))
  }

  predicate AllFileable(p: Provider, c: Config, files: map<string, File>, loads: seq<Request>) {
    forall r | r in loads :: Fileable(p, c, files, r)
  }

  /** A resumed run whose loads fit one by one either has everything already or brings at least one more file home. */
  lemma {:induction false} SessionMakesProgress(p: Provider, c: Config, s: State, loads: seq<Request>)
    requires AcceptedConfig(c) && !c.refresh && s.requests == 0 && AllFileable(p, c, s.files, loads)
    ensures var after := LoadAll(p, c, s, loads).0.files;
            && (forall k | k in s.files :: k in after)
            && (Missing(s.files, loads) > 0 ==>
                  exists r :: r in loads && KeyOf(r) in after && KeyOf(r) !in s.files)
    decreases |loads|
  {
    LoadsKeepKeys(p, c, s, loads);
    if loads != [] {
      var r := loads[0];
      assert Fileable(p, c, s.files, r);
      var first := LoadStep(p, c, s, r).0;
      if KeyOf(r) in s.files {
        SessionMakesProgress(p, c, first, loads[1..]);
      } else {
        FetchCompletes(p, c, s, r);
        LoadsKeepKeys(p, c, first, loads[1..]);
        assert KeyOf(r) in first.files;
      }
    }
  }

  /** A load that does not fit is never filed by a session, whatever else the session loads. */
  lemma LoadNeverFiles(p: Provider, c: Config, s: State, r: Request, q: Request)
    requires Dated(r) && Dated(q) && !Fileable(p, c, s.files, q)
    ensures KeyOf(q) !in LoadStep(p, c, s, r).0.files
  {
    if KeyOf(q) == KeyOf(r) {
      KeysAreDistinct(q, r);
      OversizedIsNotFiled(p, c, s, r);
    }
  }

  lemma OversizedIsNotFiled(p: Provider, c: Config, s: State, r: Request)
    requires !Fileable(p, c, s.files, r)
    ensures KeyOf(r) !in LoadStep(p, c, s, r).0.files
  {
    if c.fetchEnabled && s.requests < c.maxRequests {
      CutShortIsBudget(p, r, Budget(c, s));
      assert StoredOf(p, Limited(p, r, Budget(c, s)).result) == Error(BUDGET);
    }
  }

  lemma {:induction false} SessionNeverFiles(p: Provider, c: Config, s: State, loads: seq<Request>, q: Request)
    requires (forall r | r in loads :: Dated(r)) && Dated(q) && !Fileable(p, c, s.files, q)
    ensures KeyOf(q) !in LoadAll(p, c, s, loads).0.files
    decreases |loads|
  {
    if loads != [] {
      LoadNeverFiles(p, c, s, loads[0], q);
      SessionNeverFiles(p, c, LoadStep(p, c, s, loads[0]).0, loads[1..], q);
    }
  }

  lemma {:induction false} NothingMissing(files: map<string, File>, loads: seq<Request>)
    ensures Missing(files, loads) == 0 <==> forall r | r in loads :: KeyOf(r) in files
  {
    if loads != [] {
      NothingMissing(files, loads[1..]);
      assert forall r :: r in loads <==> r == loads[0] || r in loads[1..];
    }
  }

  function Repeated(session: Session, times: nat): (r: seq<Session>)
    ensures |r| == times
  {
    seq(times, _ => session)
  }

  /** The disk after the same session ran `times` times. */
  function After(p: Provider, files: map<string, File>, session: Session, times: nat): map<string, File> {
    Sessions(p, files, Repeated(session, times)).0
  }

  lemma AfterOneMore(p: Provider, files: map<string, File>, session: Session, times: nat)
    requires times > 0
    ensures var ended := LoadAll(p, session.config, State(files, 0, 0), session.loads);
            && After(p, files, session, times) == After(p, ended.0.files, session, times - 1)
            && Sessions(p, files, Repeated(session, times)).1
               == [ended] + Sessions(p, ended.0.files, Repeated(session, times - 1)).1
  {
    assert Repeated(session, times)[1..] == Repeated(session, times - 1);
  }

  /** As many sessions as there were files missing are enough, when every load fits. */
  lemma {:induction false} FittingLoadsAreFiled(p: Provider, files: map<string, File>, session: Session, times: nat)
    requires AcceptedConfig(session.config) && !session.config.refresh
    requires AllFileable(p, session.config, files, session.loads) && Missing(files, session.loads) <= times
    ensures Missing(After(p, files, session, times), session.loads) == 0
    decreases times
  {
    if times > 0 {
      var s := State(files, 0, 0);
      SessionMakesProgress(p, session.config, s, session.loads);
      var next := LoadAll(p, session.config, s, session.loads).0.files;
      MissingShrinks(files, next, session.loads);
      AfterOneMore(p, files, session, times);
      FittingLoadsAreFiled(p, next, session, times - 1);
    }
  }

  /** No number of sessions is, when some load does not. */
  lemma {:induction false} OversizedLoadIsNeverFiled(p: Provider, files: map<string, File>, session: Session,
                                                     times: nat, q: Request)
    requires (forall r | r in session.loads :: Dated(r)) && Dated(q) && !Fileable(p, session.config, files, q)
    ensures KeyOf(q) !in After(p, files, session, times)
    decreases times
  {
    if times > 0 {
      var s := State(files, 0, 0);
      SessionNeverFiles(p, session.config, s, session.loads, q);
      AfterOneMore(p, files, session, times);
      OversizedLoadIsNeverFiled(p, LoadAll(p, session.config, s, session.loads).0.files, session, times - 1, q);
    }
  }

  // --- Loads that are answered from disk ---

  /** The load is answered from its file; a file that is unreadable or altered does not answer. */
  predicate Served(p: Provider, files: map<string, File>, r: Request) {
    KeyOf(r) in files && Readable(p, KeyOf(r), files[KeyOf(r)])
  }

  predicate AllServed(p: Provider, files: map<string, File>, loads: seq<Request>) {
    forall r | r in loads :: Served(p, files, r)
  }

  /** The load is served already, or has no file and fits into the budget of one session. */
  predicate Obtainable(p: Provider, c: Config, files: map<string, File>, r: Request) {
    Fileable(p, c, files, r) && (KeyOf(r) in files ==> Served(p, files, r))
  }

  predicate AllObtainable(p: Provider, c: Config, files: map<string, File>, loads: seq<Request>) {
    forall r | r in loads :: Obtainable(p, c, files, r)
  }

  /** Every file stays as it is, and the new ones are readable. */
  ghost predicate Extends(p: Provider, before: map<string, File>, after: map<string, File>) {
    && (forall k | k in before :: k in after && after[k] == before[k])
    && (forall k | k in after && k !in before :: Readable(p, k, after[k]))
  }

  lemma LoadExtends(p: Provider, c: Config, s: State, r: Request)
    requires !c.refresh
    ensures Extends(p, s.files, LoadStep(p, c, s, r).0.files)
  {
  }

  lemma {:induction false} LoadsExtend(p: Provider, c: Config, s: State, loads: seq<Request>)
    requires !c.refresh
    ensures Extends(p, s.files, LoadAll(p, c, s, loads).0.files)
    decreases |loads|
  {
    if loads != [] {
      LoadExtends(p, c, s, loads[0]);
      LoadsExtend(p, c, LoadStep(p, c, s, loads[0]).0, loads[1..]);
    }
  }

  lemma {:induction false} SessionsExtend(p: Provider, files: map<string, File>, session: Session, times: nat)
    requires !session.config.refresh
    ensures Extends(p, files, After(p, files, session, times))
    decreases times
  {
    if times > 0 {
      var s := State(files, 0, 0);
      LoadsExtend(p, session.config, s, session.loads);
      AfterOneMore(p, files, session, times);
      SessionsExtend(p, LoadAll(p, session.config, s, session.loads).0.files, session, times - 1);
    }
  }

  /** Under extension a load is served exactly when it has a file that was served before, or a new one. */
  lemma ServedAfter(p: Provider, before: map<string, File>, after: map<string, File>, r: Request)
    requires Extends(p, before, after)
    ensures Served(p, after, r) <==> KeyOf(r) in after && (KeyOf(r) in before ==> Served(p, before, r))
  {
  }

  /** Seen from outside: exactly then a session is all hits, whatever its configuration and counters. */
  lemma {:induction false} ServedMeansHits(p: Provider, c: Config, s: State, loads: seq<Request>)
    requires !c.refresh
    ensures var after := LoadAll(p, c, s, loads).0;
            && after.hits <= s.hits + |loads|
            && (after.hits == s.hits + |loads| <==> AllServed(p, s.files, loads))
            && (AllServed(p, s.files, loads) ==> after == s.(hits := s.hits + |loads|))
    decreases |loads|
  {
    if loads != [] {
      var first := LoadStep(p, c, s, loads[0]).0;
      assert forall r :: r in loads <==> r == loads[0] || r in loads[1..];
      ServedMeansHits(p, c, first, loads[1..]);
      assert Served(p, s.files, loads[0]) <==> first == s.(hits := s.hits + 1);
      assert !Served(p, s.files, loads[0]) ==> first.hits == s.hits;
    }
  }

  /** Over a sound disk such a session answers every load with the provider's whole answer. */
  lemma {:induction false} ServedMeansAnswers(p: Provider, c: Config, s: State, loads: seq<Request>)
    requires !c.refresh && SoundFiles(p, s.files) && AllServed(p, s.files, loads) && forall r | r in loads :: Dated(r)
    ensures forall i | 0 <= i < |loads| :: LoadAll(p, c, s, loads).1[i] == Reported(Answer(p, loads[i]))
    decreases |loads|
  {
    if loads != [] {
      assert Served(p, s.files, loads[0]);
      Replays(p, c, s, loads[0]);
      ServedMeansAnswers(p, c, s.(hits := s.hits + 1), loads[1..]);
      forall i | 0 <= i < |loads| ensures LoadAll(p, c, s, loads).1[i] == Reported(Answer(p, loads[i])) {
        if i > 0 {
          assert loads[i] == loads[1..][i - 1];
        }
      }
    }
  }

  lemma SoundFilesServe(p: Provider, files: map<string, File>, r: Request)
    requires SoundFiles(p, files) && Dated(r)
    ensures Served(p, files, r) <==> KeyOf(r) in files
  {
  }

  /** After `times` repetitions every load is answered from disk. */
  ghost predicate Finishes(p: Provider, files: map<string, File>, session: Session, times: nat) {
    AllServed(p, After(p, files, session, times), session.loads)
  }

  lemma ObtainableIsServed(p: Provider, files: map<string, File>, session: Session, times: nat)
    requires ValidSession(session) && !session.config.refresh && times >= Missing(files, session.loads)
    requires AllObtainable(p, session.config, files, session.loads)
    ensures Finishes(p, files, session, times)
  {
    var after := After(p, files, session, times);
    forall r | r in session.loads ensures Fileable(p, session.config, files, r) {
      assert Obtainable(p, session.config, files, r);
    }
    FittingLoadsAreFiled(p, files, session, times);
    NothingMissing(after, session.loads);
    SessionsExtend(p, files, session, times);
    forall r | r in session.loads ensures Served(p, after, r) {
      assert Obtainable(p, session.config, files, r);
      ServedAfter(p, files, after, r);
    }
  }

  lemma UnobtainableIsNotServed(p: Provider, files: map<string, File>, session: Session, times: nat, q: Request)
    requires ValidSession(session) && !session.config.refresh && q in session.loads
    requires !Obtainable(p, session.config, files, q)
    ensures !Served(p, After(p, files, session, times), q)
  {
    SessionsExtend(p, files, session, times);
    ServedAfter(p, files, After(p, files, session, times), q);
    if !Fileable(p, session.config, files, q) {
      OversizedLoadIsNeverFiled(p, files, session, times, q);
    }
  }

  /** Over any disk, repeating a session that does not refresh finishes exactly when every load is served already, or
      has no file and fits into the budget of one session; then as many sessions as there were files missing are
      enough. A sound disk stays sound. */
  lemma ResumedSessionsFinish(p: Provider, files: map<string, File>, session: Session)
    requires ValidSession(session) && !session.config.refresh
    ensures (exists times: nat :: Finishes(p, files, session, times))
            <==> AllObtainable(p, session.config, files, session.loads)
    ensures forall times: nat | times >= Missing(files, session.loads) ::
              Finishes(p, files, session, times) <==> AllObtainable(p, session.config, files, session.loads)
    ensures SoundFiles(p, files) ==> forall times: nat :: SoundFiles(p, After(p, files, session, times))
  {
    if AllObtainable(p, session.config, files, session.loads) {
      forall times: nat | times >= Missing(files, session.loads) ensures Finishes(p, files, session, times) {
        ObtainableIsServed(p, files, session, times);
      }
      assert Finishes(p, files, session, Missing(files, session.loads));
    } else {
      var q :| q in session.loads && !Obtainable(p, session.config, files, q);
      forall times: nat ensures !Finishes(p, files, session, times) {
        UnobtainableIsNotServed(p, files, session, times, q);
      }
    }
    if SoundFiles(p, files) {
      forall times: nat ensures SoundFiles(p, After(p, files, session, times)) {
        HistoryIsSound(p, files, Repeated(session, times));
      }
    }
  }

  /** Over a sound disk, finishing means answers: the next session, under any configuration that does not refresh,
      gives the provider's whole answer to every load and asks nobody. */
  lemma FinishedSessionsAnswer(p: Provider, files: map<string, File>, session: Session, times: nat, c: Config)
    requires ValidSession(session) && !session.config.refresh && !c.refresh && SoundFiles(p, files)
    requires Finishes(p, files, session, times)
    ensures var (after, results) := LoadAll(p, c, State(After(p, files, session, times), 0, 0), session.loads);
            && after.requests == 0 && after.files == After(p, files, session, times)
            && forall i | 0 <= i < |session.loads| :: results[i] == Reported(Answer(p, session.loads[i]))
  {
    var s := State(After(p, files, session, times), 0, 0);
    HistoryIsSound(p, files, Repeated(session, times));
    ServedMeansHits(p, c, s, session.loads);
    ServedMeansAnswers(p, c, s, session.loads);
  }

  /** What can be known without the provider: with a budget of one whole pagination only a file that does not answer
      can stand in the way, unless the provider's own answer is the text of an exhausted budget. */
  lemma WholePaginationIsEnough(p: Provider, files: map<string, File>, session: Session)
    requires ValidSession(session) && !session.config.refresh
    requires session.config.fetchEnabled && session.config.maxRequests >= PAGES
    requires forall r | r in session.loads :: Answer(p, r) != Error(BUDGET)
    ensures Finishes(p, files, session, Missing(files, session.loads))
            <==> forall r | r in session.loads && KeyOf(r) in files :: Served(p, files, r)
    ensures SoundFiles(p, files) ==> Finishes(p, files, session, Missing(files, session.loads))
  {
    ResumedSessionsFinish(p, files, session);
    forall r | r in session.loads ensures Fileable(p, session.config, files, r) {
    }
    if SoundFiles(p, files) {
      forall r | r in session.loads && KeyOf(r) in files ensures Served(p, files, r) {
        SoundFilesServe(p, files, r);
      }
    }
  }

  // --- Refreshing sessions ---

  /** The requests that all loads take together. */
  function Cost(p: Provider, loads: seq<Request>): nat {
    if loads == [] then 0 else Unlimited(p, loads[0]).requests + Cost(p, loads[1..])
  }

  predicate Answered(p: Provider, loads: seq<Request>, results: seq<CacheResult>) {
    |results| == |loads| && forall i | 0 <= i < |loads| ::
      results[i] == Reported(Answer(p, loads[i])) && results[i] != NotLoaded(BUDGET)
  }

  /** All loads fit into the budget together. */
  predicate FitsWhole(p: Provider, c: Config, requests: nat, loads: seq<Request>) {
    requests + Cost(p, loads) <= c.maxRequests && forall r | r in loads :: Answer(p, r) != Error(BUDGET)
  }

  lemma RefreshedLoad(p: Provider, c: Config, s: State, r: Request)
    requires AcceptedConfig(c) && c.refresh && s.requests <= c.maxRequests
    ensures var (after, result) := LoadStep(p, c, s, r);
            if s.requests + Unlimited(p, r).requests <= c.maxRequests && Answer(p, r) != Error(BUDGET)
            then result == Reported(Answer(p, r)) != NotLoaded(BUDGET)
                 && after.requests == s.requests + Unlimited(p, r).requests
            else result == NotLoaded(BUDGET)
  {
    CutShortIsBudget(p, r, Budget(c, s));
    if Answer(p, r) != Error(BUDGET) {
      FetchCompletes(p, c, s, r);
    }
  }

  lemma AnsweredSplits(p: Provider, loads: seq<Request>, results: seq<CacheResult>)
    requires |results| == |loads| > 0
    ensures Answered(p, loads, results) <==>
              results[0] == Reported(Answer(p, loads[0])) && results[0] != NotLoaded(BUDGET)
              && Answered(p, loads[1..], results[1..])
  {
    if Answered(p, loads[1..], results[1..]) {
      forall i | 1 <= i < |loads|
        ensures results[i] == Reported(Answer(p, loads[i])) && results[i] != NotLoaded(BUDGET) {
        assert loads[i] == loads[1..][i - 1] && results[i] == results[1..][i - 1];
      }
    }
  }

  /** A refreshing session answers every load exactly when all of them fit into its budget together. */
  lemma {:induction false} RefreshCompletes(p: Provider, c: Config, s: State, loads: seq<Request>)
    requires AcceptedConfig(c) && c.refresh && s.requests <= c.maxRequests
    ensures Answered(p, loads, LoadAll(p, c, s, loads).1) <==> FitsWhole(p, c, s.requests, loads)
    decreases |loads|
  {
    if loads != [] {
      var r := loads[0];
      var (first, result) := LoadStep(p, c, s, r);
      var results := LoadAll(p, c, s, loads).1;
      RefreshedLoad(p, c, s, r);
      AnsweredSplits(p, loads, results);
      assert results[0] == result && results[1..] == LoadAll(p, c, first, loads[1..]).1;
      assert forall q :: q in loads <==> q == r || q in loads[1..];
      if s.requests + Unlimited(p, r).requests <= c.maxRequests && Answer(p, r) != Error(BUDGET) {
        RefreshCompletes(p, c, first, loads[1..]);
      }
    }
  }

  lemma {:induction false} LoadsKeepAnswer(p: Provider, c: Config, s: State, loads: seq<Request>, q: Request)
    requires Dated(q) && (forall r | r in loads :: Dated(r)) && KeyOf(q) in s.files && s.files[KeyOf(q)] == FileOf(p, q)
    ensures var after := LoadAll(p, c, s, loads).0.files; KeyOf(q) in after && after[KeyOf(q)] == FileOf(p, q)
    decreases |loads|
  {
    if loads != [] {
      if KeyOf(loads[0]) == KeyOf(q) {
        KeysAreDistinct(loads[0], q);
      }
      CutShortIsBudget(p, loads[0], Budget(c, s));
      LoadsKeepAnswer(p, c, LoadStep(p, c, s, loads[0]).0, loads[1..], q);
    }
  }

  /** A refreshing session that fits repairs the disk: whatever stood there, every load is served afterwards. */
  lemma {:induction false} RefreshRepairs(p: Provider, c: Config, s: State, loads: seq<Request>)
    requires AcceptedConfig(c) && c.refresh && FitsWhole(p, c, s.requests, loads) && forall r | r in loads :: Dated(r)
    ensures forall r | r in loads :: Served(p, LoadAll(p, c, s, loads).0.files, r)
                                     && LoadAll(p, c, s, loads).0.files[KeyOf(r)] == FileOf(p, r)
    decreases |loads|
  {
    if loads != [] {
      var first := LoadStep(p, c, s, loads[0]).0;
      FetchCompletes(p, c, s, loads[0]);
      RefreshRepairs(p, c, first, loads[1..]);
      LoadsKeepAnswer(p, c, first, loads[1..], loads[0]);
    }
  }

  lemma {:induction false} CostBound(p: Provider, loads: seq<Request>)
    ensures Cost(p, loads) <= PAGES * |loads|
  {
    if loads != [] {
      CostBound(p, loads[1..]);
    }
  }

  /** What can be known without the provider: one whole pagination per load is enough. */
  lemma WholePaginationsAreEnough(p: Provider, c: Config, files: map<string, File>, loads: seq<Request>)
    requires AcceptedConfig(c) && c.refresh && PAGES * |loads| <= c.maxRequests
    requires forall r | r in loads :: Answer(p, r) != Error(BUDGET)
    ensures Answered(p, loads, LoadAll(p, c, State(files, 0, 0), loads).1)
  {
    CostBound(p, loads);
    RefreshCompletes(p, c, State(files, 0, 0), loads);
  }

  lemma RefreshedStep(p: Provider, c: Config, s: State, r: Request)
    requires c.refresh
    ensures var (after, result) := LoadStep(p, c, s, r);
            var (alone, same) := LoadStep(p, c, State(map[], s.requests, 0), r);
            result == same && after.requests == alone.requests && after.files == s.files + alone.files
  {
    var key := KeyOf(r);
    var file := Envelope(1, key, StoredOf(p, Limited(p, r, Budget(c, s)).result));
    assert s.files + map[] == s.files;
    assert s.files + map[key := file] == s.files[key := file];
  }

  lemma Merged(a: map<string, File>, b: map<string, File>, c: map<string, File>)
    ensures (a + b) + c == a + (b + c)
  {
  }

  /** What a refreshing session answers does not depend on the disk, and it writes the same files over any disk. */
  lemma {:induction false} RefreshIgnoresDisk(p: Provider, c: Config, s: State, loads: seq<Request>)
    requires c.refresh
    ensures var (after, results) := LoadAll(p, c, s, loads);
            var (alone, same) := LoadAll(p, c, State(map[], s.requests, 0), loads);
            results == same && after.requests == alone.requests && after.files == s.files + alone.files
    decreases |loads|
  {
    if loads != [] {
      var first := LoadStep(p, c, s, loads[0]).0;
      var firstAlone := LoadStep(p, c, State(map[], s.requests, 0), loads[0]).0;
      RefreshedStep(p, c, s, loads[0]);
      RefreshIgnoresDisk(p, c, first, loads[1..]);
      RefreshIgnoresDisk(p, c, firstAlone, loads[1..]);
      Merged(s.files, firstAlone.files, LoadAll(p, c, State(map[], first.requests, 0), loads[1..]).0.files);
    }
  }

  /** So repeating it never gets further than the first time: each repetition gives the same results, complete exactly
      when all loads fit together, and leaves the disk as the first one left it. */
  lemma {:induction false} RefreshNeverGetsFurther(p: Provider, files: map<string, File>, session: Session, times: nat)
    requires AcceptedConfig(session.config) && session.config.refresh && times > 0
    ensures var (after, ends) := Sessions(p, files, Repeated(session, times));
            && after == LoadAll(p, session.config, State(files, 0, 0), session.loads).0.files
            && forall i | 0 <= i < times ::
                 ends[i].1 == LoadAll(p, session.config, State(files, 0, 0), session.loads).1
                 && (Answered(p, session.loads, ends[i].1) <==> FitsWhole(p, session.config, 0, session.loads))
    decreases times
  {
    var c, loads, s := session.config, session.loads, State(files, 0, 0);
    var ended := LoadAll(p, c, s, loads);
    AfterOneMore(p, files, session, times);
    RefreshCompletes(p, c, s, loads);
    if times > 1 {
      var again := State(ended.0.files, 0, 0);
      RefreshNeverGetsFurther(p, ended.0.files, session, times - 1);
      RefreshIgnoresDisk(p, c, s, loads);
      RefreshIgnoresDisk(p, c, again, loads);
      assert LoadAll(p, c, again, loads).0.files == ended.0.files;
    }
  }

  // --- Sessions that never finish ---

  /** Every request is answered by two pages. */
  const TWO_PAGES := Provider(
    (r: Request) => "first", (endpoint: string) => Success(endpoint), (page: Page) => None,
    (r: Request, page: Page) => if page == "first" then Success(Some("second")) else Success(None),
    (r: Request, page: Page) => page, (r: Request, pages: Evidence) => None, (pages: Evidence) => "digest")

  const SPY_DAILY := Request(DAILY, SPY, "2024-01-01", "2024-12-31")
  const QQQ_DAILY := Request(DAILY, QQQ, "2024-01-01", "2024-12-31")

  lemma TwoPagesEach(r: Request)
    ensures Unlimited(TWO_PAGES, r).requests == 2 && Answer(TWO_PAGES, r).Ok?
  {
    var second := Follow(TWO_PAGES, r, "second", ["first"], ["first"]);
    assert [] + ["first"] == ["first"];
    assert second.requests == 1 && second.result.Success?;
    assert Unlimited(TWO_PAGES, r) == Fetched(second.result, 2);
  }

  /** With a budget of one request, two pages are never fetched, however often the session resumes. */
  lemma BudgetOfOneNeverFinishes(times: nat)
    ensures var session := Session(Config(true, false, 1), [SPY_DAILY]);
            ValidSession(session) && !Finishes(TWO_PAGES, map[], session, times)
  {
    var session := Session(Config(true, false, 1), [SPY_DAILY]);
    TwoPagesEach(SPY_DAILY);
    assert SPY_DAILY in session.loads && !Obtainable(TWO_PAGES, session.config, map[], SPY_DAILY);
    ResumedSessionsFinish(TWO_PAGES, map[], session);
  }

  lemma OneLoad(p: Provider, c: Config, s: State, r: Request)
    ensures var (after, result) := LoadStep(p, c, s, r); LoadAll(p, c, s, [r]) == (after, [result])
  {
    var (after, result) := LoadStep(p, c, s, r);
    assert [r][1..] == [] && LoadAll(p, c, after, []) == (after, []);
    assert [result] + [] == [result];
  }

  /** With a corrupted file every repetition refuses the load, whatever the provider and the budget; although a file
      stands under every key. */
  lemma CorruptedFileNeverFinishes(p: Provider, times: nat, i: nat)
    requires i < times
    ensures var session, files := Session(Config(true, false, 300), [SPY_DAILY]), map[KeyOf(SPY_DAILY) := Unreadable];
            && ValidSession(session) && Missing(files, session.loads) == 0 && !Finishes(p, files, session, times)
            && Sessions(p, files, Repeated(session, times)).1[i].1 == [NotLoaded(INVALID)]
    decreases times
  {
    var session, files := Session(Config(true, false, 300), [SPY_DAILY]), map[KeyOf(SPY_DAILY) := Unreadable];
    var s := State(files, 0, 0);
    assert SPY_DAILY in session.loads && !Obtainable(p, session.config, files, SPY_DAILY);
    ResumedSessionsFinish(p, files, session);
    AfterOneMore(p, files, session, times);
    assert LoadStep(p, session.config, s, SPY_DAILY) == (s, NotLoaded(INVALID));
    OneLoad(p, session.config, s, SPY_DAILY);
    if i > 0 {
      CorruptedFileNeverFinishes(p, times - 1, i - 1);
    }
  }

  /** With a budget of two, a resumed session fetches two such answers in two runs, and a refreshing one never does. */
  lemma RefreshOfTwoNeverFinishes(times: nat)
    requires times >= 2
    ensures var loads := [SPY_DAILY, QQQ_DAILY];
            && Finishes(TWO_PAGES, map[], Session(Config(true, false, 2), loads), times)
            && forall i | 0 <= i < times ::
                 !Answered(TWO_PAGES, loads,
                           Sessions(TWO_PAGES, map[], Repeated(Session(Config(true, true, 2), loads), times)).1[i].1)
  {
    var loads := [SPY_DAILY, QQQ_DAILY];
    TwoPagesEach(SPY_DAILY);
    TwoPagesEach(QQQ_DAILY);
    assert loads[1..] == [QQQ_DAILY] && loads[1..][1..] == [];
    assert Cost(TWO_PAGES, loads[1..]) == 2 && Missing(map[], loads[1..]) == 1;
    ResumedSessionsFinish(TWO_PAGES, map[], Session(Config(true, false, 2), loads));
    RefreshNeverGetsFurther(TWO_PAGES, map[], Session(Config(true, true, 2), loads), times);
  }
}
