/**
 The run cache of the vector-factor pipeline: sessions that reuse stored results report what a
 session without a cache would have measured.
 */
module RunCache {
  import opened Common
  import Decimal

  // ----- data

  /** A loop and, for each of its plans, the vector factors the compiler offers. */
  datatype Loop = Loop(index: nat, plans: seq<seq<string>>)

  datatype Analysis = Analysis(benchmark: string, sourcePath: string, category: string, loops: seq<Loop>,
                               error: Option<string>)

  datatype Mode = Default | Forced

  datatype Request = Request(benchmark: string, sourcePath: string, category: string,
                             loopIndex: Option<nat>, requestedVf: Option<string>, mode: Mode)

  /** `details` stands for the fields that are only carried along. */
  datatype RunResult = RunResult(request: Request, kernelCycles: Option<int>, details: string,
                                 cacheHit: bool, deltaVsDefault: Option<int>, speedupVsDefault: Option<real>)

  datatype Spec = Spec(benchmark: string, sourcePath: string, category: string)

  /**
   The world outside the cache, deterministic: the loops' names and sources, compiler and
   simulator, and the key digest.
   */
  datatype Suite = Suite(names: set<string>, specOf: string -> Spec, analyze: Spec -> Analysis,
                         execute: (Analysis, Request) -> (Option<int>, string), digest: string -> string,
                         before: seq<string>, after: seq<string>, analysisAfter: seq<string>)

  // ----- requests

  function AddNew(seen: seq<string>, vfs: seq<string>): (r: seq<string>)
    decreases |vfs|
  {
    if vfs == [] then seen
    else AddNew(if vfs[0] in seen then seen else seen + [vfs[0]], vfs[1..])
  }

  function AllVfs(plans: seq<seq<string>>, seen: seq<string>): seq<string>
    decreases |plans|
  {
    if plans == [] then seen else AllVfs(plans[1..], AddNew(seen, plans[0]))
  }

  function RequestedVfs(loop: Loop): seq<string> {
    AllVfs(loop.plans, [])
  }

  function LoopRequests(a: Analysis, loop: Loop, vfs: seq<string>): (r: seq<Request>)
    ensures |r| == |vfs|
    ensures forall i | 0 <= i < |r| ::
              r[i] == Request(a.benchmark, a.sourcePath, a.category, Some(loop.index), Some(vfs[i]), Forced)
  {
    seq(|vfs|, i requires 0 <= i < |vfs| =>
      Request(a.benchmark, a.sourcePath, a.category, Some(loop.index), Some(vfs[i]), Forced))
  }

  function ForcedRequests(a: Analysis, loops: seq<Loop>): seq<Request>
    decreases |loops|
  {
    if loops == [] then [] else LoopRequests(a, loops[0], RequestedVfs(loops[0])) + ForcedRequests(a, loops[1..])
  }

  /** The default run, then one forced run per loop and vector factor. */
  function BenchmarkRequests(a: Analysis): seq<Request> {
    [Request(a.benchmark, a.sourcePath, a.category, None, None, Default)] + ForcedRequests(a, a.loops)
  }

  ghost predicate WellFormed(r: Request) {
    if r.mode == Default then r.loopIndex == None && r.requestedVf == None
    else r.loopIndex.Some? && r.requestedVf.Some?
  }

  lemma {:induction false} AddNewFacts(seen: seq<string>, vfs: seq<string>)
    requires Distinct(seen)
    ensures Distinct(AddNew(seen, vfs)) && forall v :: v in AddNew(seen, vfs) <==> v in seen || v in vfs
    decreases |vfs|
  {
    if vfs == [] {
    } else {
      AddNewFacts(if vfs[0] in seen then seen else seen + [vfs[0]], vfs[1..]);
      assert vfs == [vfs[0]] + vfs[1..];
    }
  }

  lemma {:induction false} AllVfsFacts(plans: seq<seq<string>>, seen: seq<string>)
    requires Distinct(seen)
    ensures Distinct(AllVfs(plans, seen))
    ensures forall v :: v in AllVfs(plans, seen) <==> v in seen || exists p :: p in plans && v in p
    decreases |plans|
  {
    if plans == [] {
    } else {
      AddNewFacts(seen, plans[0]);
      AllVfsFacts(plans[1..], AddNew(seen, plans[0]));
      assert plans == [plans[0]] + plans[1..];
    }
  }

  lemma {:induction false} ForcedMembers(a: Analysis, loops: seq<Loop>, r: Request)
    ensures r in ForcedRequests(a, loops)
            <==> exists loop :: loop in loops && r in LoopRequests(a, loop, RequestedVfs(loop))
    decreases |loops|
  {
    if loops == [] {
    } else {
      ForcedMembers(a, loops[1..], r);
      assert loops == [loops[0]] + loops[1..];
    }
  }

  /** Every offered factor of every loop is requested, and nothing else, after the one default run. */
  lemma RequestsComplete(a: Analysis, r: Request)
    ensures r in BenchmarkRequests(a)
            <==> WellFormed(r) && r.benchmark == a.benchmark && r.sourcePath == a.sourcePath && r.category == a.category
                 && (r.mode == Forced ==>
                       exists loop, p :: loop in a.loops && loop.index == r.loopIndex.value
                                         && p in loop.plans && r.requestedVf.value in p)
  {
    ForcedMembers(a, a.loops, r);
    forall loop ensures r in LoopRequests(a, loop, RequestedVfs(loop))
                        <==> WellFormed(r) && r.mode == Forced && r.benchmark == a.benchmark
                             && r.sourcePath == a.sourcePath
                             && r.category == a.category && loop.index == r.loopIndex.value
                             && exists p :: p in loop.plans && r.requestedVf.value in p
    {
      AllVfsFacts(loop.plans, []);
      var vfs := RequestedVfs(loop);
      if WellFormed(r) && r.mode == Forced && r.requestedVf.value in vfs {
        var i :| 0 <= i < |vfs| && vfs[i] == r.requestedVf.value;
        assert LoopRequests(a, loop, vfs)[i].requestedVf == r.requestedVf;
      }
    }
  }

  // ----- the cache key

  function Join(parts: seq<string>): string {
    if parts == [] then "" else if |parts| == 1 then parts[0] else parts[0] + "|" + Join(parts[1..])
  }

  ghost predicate NoBars(parts: seq<string>) {
    forall i | 0 <= i < |parts| :: '|' !in parts[i]
  }

  lemma HeadsEqual(x: string, y: string, s: string, t: string)
    requires '|' !in x && '|' !in y && x + "|" + s == y + "|" + t
    ensures x == y && s == t
  {
    var u := x + "|" + s;
    assert u[|x|] == '|' && u[|y|] == '|';
    assert (forall i | 0 <= i < |x| :: u[i] == x[i]) && forall i | 0 <= i < |y| :: u[i] == y[i];
    assert |x| == |y|;
    assert x == u[..|x|] && y == u[..|y|];
    assert s == u[|x| + 1..] && t == u[|y| + 1..];
  }

  /** Joining loses nothing when no part contains the separator. */
  lemma {:induction false} JoinInjective(xs: seq<string>, ys: seq<string>)
    requires |xs| == |ys| && NoBars(xs) && NoBars(ys) && Join(xs) == Join(ys)
    ensures xs == ys
  {
    if |xs| == 1 {
      assert xs == [xs[0]] && ys == [ys[0]];
    } else if |xs| > 1 {
      HeadsEqual(xs[0], ys[0], Join(xs[1..]), Join(ys[1..]));
      JoinInjective(xs[1..], ys[1..]);
      assert xs == [xs[0]] + xs[1..] && ys == [ys[0]] + ys[1..];
    }
  }

  function ModeText(m: Mode): string {
    if m == Default then "default" else "forced"
  }

  function IndexText(i: Option<nat>): string {
    if i == None then "None" else Decimal.Notation(i.value)
  }

  function VfText(v: Option<string>): string {
    if v == None then "None" else v.value
  }

  function KeyParts(w: Suite, r: Request): seq<string> {
    w.before + [r.benchmark, r.sourcePath, IndexText(r.loopIndex), VfText(r.requestedVf), ModeText(r.mode)] + w.after
  }

  function RunCacheKey(w: Suite, r: Request): string {
    w.digest(Join(KeyParts(w, r)))
  }

  function AnalysisCacheKey(w: Suite, benchmark: string, sourcePath: string): string {
    w.digest(Join(w.before + [benchmark, sourcePath] + w.analysisAfter))
  }

  ghost predicate Clean(w: Suite, r: Request) {
    WellFormed(r) && NoBars([r.benchmark, r.sourcePath, VfText(r.requestedVf)])
  }

  ghost predicate InjectiveDigest(w: Suite) {
    NoBars(w.before) && NoBars(w.after) && NoBars(w.analysisAfter) && forall x, y | w.digest(x) == w.digest(y) :: x == y
  }

  lemma NumbersClean(i: Option<nat>)
    ensures '|' !in IndexText(i)
    ensures i.Some? ==> IndexText(i)[0] != 'N'
  {
    if i.Some? {
      Decimal.NotationValue(i.value);
    }
  }

  /** Two requests share a key only if they ask for the same run. */
  lemma KeyInjective(w: Suite, r: Request, t: Request)
    requires InjectiveDigest(w) && Clean(w, r) && Clean(w, t) && RunCacheKey(w, r) == RunCacheKey(w, t)
    ensures r.(category := "") == t.(category := "")
  {
    var p, q := KeyParts(w, r), KeyParts(w, t);
    var n := |w.before|;
    NumbersClean(r.loopIndex);
    NumbersClean(t.loopIndex);
    PartsClean(w, r);
    PartsClean(w, t);
    assert Join(p) == Join(q);
    JoinInjective(p, q);
    assert p[n] == q[n] && p[n + 1] == q[n + 1] && p[n + 2] == q[n + 2] && p[n + 3] == q[n + 3] && p[n + 4] == q[n + 4];
    assert ModeText(r.mode)[0] == ModeText(t.mode)[0];
    assert r.mode == t.mode;
    if r.mode == Forced {
      Decimal.NotationValue(r.loopIndex.value);
      Decimal.NotationValue(t.loopIndex.value);
    }
  }

  lemma PartsClean(w: Suite, r: Request)
    requires NoBars(w.before) && NoBars(w.after) && Clean(w, r)
    ensures NoBars(KeyParts(w, r))
  {
    NumbersClean(r.loopIndex);
    var mid := [r.benchmark, r.sourcePath, VfText(r.requestedVf)];
    assert '|' !in mid[0] && '|' !in mid[1] && '|' !in mid[2];
  }

  // ----- one run

  /** What the backend measures, before any comparison with the default run. */
  function Fresh(w: Suite, a: Analysis, r: Request): RunResult {
    var (cycles, details) := w.execute(a, r);
    RunResult(r, cycles, details, false, None, None)
  }

  function WithBaseline(r: RunResult, baseline: Option<RunResult>): RunResult {
    if baseline == None || r.request.mode == Default then r
    else if baseline.value.kernelCycles == None || r.kernelCycles == None then r
    else
      var b, k := baseline.value.kernelCycles.value, r.kernelCycles.value;
      r.(deltaVsDefault := Some(k - b),
         speedupVsDefault := if k > 0 then Some(b as real / k as real) else r.speedupVsDefault)
  }

  /** One request against the stored runs: the new store and the result. */
  function RequestStep(w: Suite, runs: map<string, RunResult>, noCache: bool, a: Analysis, r: Request,
                       baseline: Option<RunResult>): (map<string, RunResult>, RunResult)
  {
    var key := RunCacheKey(w, r);
    if !noCache && key in runs then (runs, WithBaseline(runs[key].(cacheHit := true), baseline))
    else
      var result := Fresh(w, a, r);
      (runs[key := result], WithBaseline(result, baseline))
  }

  function NextBaseline(r: Request, result: RunResult, baseline: Option<RunResult>): Option<RunResult> {
    if r.mode == Default then Some(result) else baseline
  }

  function RequestsRun(w: Suite, runs: map<string, RunResult>, noCache: bool, a: Analysis, rs: seq<Request>,
                       baseline: Option<RunResult>): (map<string, RunResult>, seq<RunResult>)
    decreases |rs|
  {
    if rs == [] then (runs, []) else
    var (runs1, result) := RequestStep(w, runs, noCache, a, rs[0], baseline);
    var (runs2, rest) := RequestsRun(w, runs1, noCache, a, rs[1..], NextBaseline(rs[0], result, baseline));
    (runs2, [result] + rest)
  }

  function AnalysesRun(w: Suite, runs: map<string, RunResult>, noCache: bool, analyses: seq<Analysis>)
    : (map<string, RunResult>, seq<RunResult>)
    decreases |analyses|
  {
    if analyses == [] then (runs, []) else
    if analyses[0].error.Some? then AnalysesRun(w, runs, noCache, analyses[1..]) else
    var (runs1, first) := RequestsRun(w, runs, noCache, analyses[0], BenchmarkRequests(analyses[0]), None);
    var (runs2, rest) := AnalysesRun(w, runs1, noCache, analyses[1..]);
    (runs2, first + rest)
  }

  // ----- analyses

  function AnalysisStep(w: Suite, stored: map<string, Analysis>, noCache: bool, benchmark: string):
    (map<string, Analysis>, Analysis)
  {
    var spec := w.specOf(benchmark);
    var key := AnalysisCacheKey(w, spec.benchmark, spec.sourcePath);
    if !noCache && key in stored then (stored, stored[key])
    else
      var a := w.analyze(spec);
      (stored[key := a], a)
  }

  function AnalyzeAll(w: Suite, stored: map<string, Analysis>, noCache: bool, benchmarks: seq<string>)
    : (map<string, Analysis>, seq<Analysis>)
    decreases |benchmarks|
  {
    if benchmarks == [] then (stored, []) else
    var (stored1, a) := AnalysisStep(w, stored, noCache, benchmarks[0]);
    var (stored2, rest) := AnalyzeAll(w, stored1, noCache, benchmarks[1..]);
    (stored2, [a] + rest)
  }

  // ----- sessions

  datatype Store = Store(analyses: map<string, Analysis>, runs: map<string, RunResult>)

  datatype Session = Session(noCache: bool, benchmarks: seq<string>)

  function SessionRun(w: Suite, s: Store, session: Session): (Store, seq<RunResult>) {
    var (stored, analyses) := AnalyzeAll(w, s.analyses, session.noCache, session.benchmarks);
    var (runs, results) := AnalysesRun(w, s.runs, session.noCache, analyses);
    (Store(stored, runs), results)
  }

  function SessionsRun(w: Suite, s: Store, sessions: seq<Session>): (Store, seq<seq<RunResult>>)
    decreases |sessions|
  {
    if sessions == [] then (s, []) else
    var (s1, results) := SessionRun(w, s, sessions[0]);
    var (s2, rest) := SessionsRun(w, s1, sessions[1..]);
    (s2, [results] + rest)
  }

  /** A session that measures everything itself. */
  function ColdSession(w: Suite, benchmarks: seq<string>): seq<RunResult> {
    SessionRun(w, Store(map[], map[]), Session(true, benchmarks)).1
  }

  // ----- what the cache may contain

  function AnalysisOf(w: Suite, benchmark: string): Analysis {
    w.analyze(w.specOf(benchmark))
  }

  /** The compiler's report carries the names it was asked about, and no name contains the separator. */
  ghost predicate Regular(w: Suite) {
    InjectiveDigest(w)
    && (forall b | b in w.names :: w.specOf(b).benchmark == b && '|' !in b && '|' !in w.specOf(b).sourcePath)
    && (forall b | b in w.names ::
          AnalysisOf(w, b).benchmark == b
          && AnalysisOf(w, b).sourcePath == w.specOf(b).sourcePath
          && AnalysisOf(w, b).category == w.specOf(b).category)
    && forall b, loop, p, vf ::
         b in w.names && loop in AnalysisOf(w, b).loops && p in loop.plans && vf in p ==> '|' !in vf
  }

  ghost predicate Known(w: Suite, benchmarks: seq<string>) {
    forall i | 0 <= i < |benchmarks| :: benchmarks[i] in w.names
  }

  /** Every stored run is what the backend would measure for any request with that key. */
  ghost predicate SoundRuns(w: Suite, runs: map<string, RunResult>) {
    forall b, r | b in w.names && r in BenchmarkRequests(AnalysisOf(w, b)) && RunCacheKey(w, r) in runs ::
      runs[RunCacheKey(w, r)] == Fresh(w, AnalysisOf(w, b), r)
  }

  ghost predicate SoundAnalyses(w: Suite, stored: map<string, Analysis>) {
    forall b | b in w.names && AnalysisCacheKey(w, b, w.specOf(b).sourcePath) in stored ::
      stored[AnalysisCacheKey(w, b, w.specOf(b).sourcePath)] == AnalysisOf(w, b)
  }

  /** A result but for the mark that it came from the cache. */
  function Strip(r: RunResult): RunResult {
    r.(cacheHit := false)
  }

  function StripAll(rs: seq<RunResult>): (s: seq<RunResult>)
    ensures |s| == |rs| && forall i | 0 <= i < |rs| :: s[i] == Strip(rs[i])
  {
    seq(|rs|, i requires 0 <= i < |rs| => Strip(rs[i]))
  }

  ghost predicate SameBaseline(x: Option<RunResult>, y: Option<RunResult>) {
    (x == None <==> y == None) && (x.Some? ==> Strip(x.value) == Strip(y.value))
  }

  lemma RequestClean(w: Suite, b: string, r: Request)
    requires Regular(w) && b in w.names && r in BenchmarkRequests(AnalysisOf(w, b))
    ensures Clean(w, r) && r.benchmark == b && r.category == w.specOf(b).category
  {
    var a := AnalysisOf(w, b);
    RequestsComplete(a, r);
    if r.mode == Forced {
      var loop, p :| loop in a.loops && loop.index == r.loopIndex.value && p in loop.plans && r.requestedVf.value in p;
    }
    assert a.benchmark == b;
    var parts := [r.benchmark, r.sourcePath, VfText(r.requestedVf)];
    assert '|' !in parts[0] && '|' !in parts[1] && '|' !in parts[2];
  }

  /** Storing a measured run keeps the store sound: no other request has its key. */
  lemma StoreSound(w: Suite, runs: map<string, RunResult>, b: string, r: Request)
    requires Regular(w) && b in w.names && SoundRuns(w, runs) && r in BenchmarkRequests(AnalysisOf(w, b))
    ensures SoundRuns(w, runs[RunCacheKey(w, r) := Fresh(w, AnalysisOf(w, b), r)])
  {
    hide RunCacheKey, BenchmarkRequests, Fresh;
    var runs1 := runs[RunCacheKey(w, r) := Fresh(w, AnalysisOf(w, b), r)];
    forall c, t | c in w.names && t in BenchmarkRequests(AnalysisOf(w, c)) && RunCacheKey(w, t) in runs1
      ensures runs1[RunCacheKey(w, t)] == Fresh(w, AnalysisOf(w, c), t)
    {
      if RunCacheKey(w, t) == RunCacheKey(w, r) {
        RequestClean(w, b, r);
        RequestClean(w, c, t);
        KeyInjective(w, r, t);
      }
    }
  }

  /** A result compared with the default run's cycles `d`. */
  ghost predicate Compared(d: Option<int>, x: RunResult) {
    if x.request.mode == Forced && d.Some? && x.kernelCycles.Some? then
      var k := x.kernelCycles.value;
      x.deltaVsDefault == Some(k - d.value)
      && (k > 0 <==> x.speedupVsDefault.Some?)
      && (k > 0 ==> x.speedupVsDefault.value * k as real == d.value as real)
    else x.deltaVsDefault == None && x.speedupVsDefault == None
  }

  lemma StepCompared(w: Suite, a: Analysis, r: Request, baseline: Option<RunResult>, x: RunResult)
    requires Strip(x) == Strip(WithBaseline(Fresh(w, a, r), baseline))
    ensures x.request == r && (x.kernelCycles, x.details) == w.execute(a, r)
    ensures Compared(if baseline.Some? then baseline.value.kernelCycles else None, x)
  {
    assert x.request == Strip(x).request && x.kernelCycles == Strip(x).kernelCycles && x.details == Strip(x).details
           && x.deltaVsDefault == Strip(x).deltaVsDefault && x.speedupVsDefault == Strip(x).speedupVsDefault;
  }

  /** One request, cached or not, reports what the backend measures, compared with the default run. */
  lemma RequestStepSound(w: Suite, runs: map<string, RunResult>, noCache: bool, b: string, r: Request,
                         x: Option<RunResult>, y: Option<RunResult>)
    requires Regular(w) && b in w.names && SoundRuns(w, runs) && r in BenchmarkRequests(AnalysisOf(w, b))
             && SameBaseline(x, y)
    ensures var (runs1, result) := RequestStep(w, runs, noCache, AnalysisOf(w, b), r, x);
            SoundRuns(w, runs1) && Strip(result) == Strip(WithBaseline(Fresh(w, AnalysisOf(w, b), r), y))
            && result.request == r && (result.kernelCycles, result.details) == w.execute(AnalysisOf(w, b), r)
            && Compared(if x.Some? then x.value.kernelCycles else None, result)
  {
    StoreSound(w, runs, b, r);
    hide RunCacheKey, BenchmarkRequests;
    var key := RunCacheKey(w, r);
    if !noCache && key in runs {
      assert runs[key] == Fresh(w, AnalysisOf(w, b), r);
    }
    StepCompared(w, AnalysisOf(w, b), r, x, RequestStep(w, runs, noCache, AnalysisOf(w, b), r, x).1);
  }

  /** Two histories of the cache, one answer. */
  lemma {:induction false} RequestsAgree(w: Suite, runs: map<string, RunResult>, noCache: bool,
                                         runs': map<string, RunResult>, noCache': bool, b: string, rs: seq<Request>,
                                         x: Option<RunResult>, y: Option<RunResult>)
    requires Regular(w) && b in w.names && SoundRuns(w, runs) && SoundRuns(w, runs') && SameBaseline(x, y)
    requires forall r | r in rs :: r in BenchmarkRequests(AnalysisOf(w, b))
    ensures var (runs1, results) := RequestsRun(w, runs, noCache, AnalysisOf(w, b), rs, x);
            var (runs1', results') := RequestsRun(w, runs', noCache', AnalysisOf(w, b), rs, y);
            SoundRuns(w, runs1) && SoundRuns(w, runs1') && StripAll(results) == StripAll(results')
    decreases |rs|
  {
    if rs == [] {
    } else {
      hide SoundRuns, BenchmarkRequests, WithBaseline, Fresh, RequestStep;
      var a, r := AnalysisOf(w, b), rs[0];
      assert r in rs && forall t | t in rs[1..] :: t in rs;
      RequestStepSound(w, runs, noCache, b, r, x, y);
      RequestStepSound(w, runs', noCache', b, r, y, y);
      var (runs1, result) := RequestStep(w, runs, noCache, a, r, x);
      var (runs1', result') := RequestStep(w, runs', noCache', a, r, y);
      RequestsAgree(w, runs1, noCache, runs1', noCache', b, rs[1..], NextBaseline(r, result, x),
                    NextBaseline(r, result', y));
      StripCons(result, RequestsRun(w, runs1, noCache, a, rs[1..], NextBaseline(r, result, x)).1);
      StripCons(result', RequestsRun(w, runs1', noCache', a, rs[1..], NextBaseline(r, result', y)).1);
    }
  }

  lemma StripCons(r: RunResult, rs: seq<RunResult>)
    ensures StripAll([r] + rs) == [Strip(r)] + StripAll(rs)
  {
  }

  lemma StripConcat(rs: seq<RunResult>, ts: seq<RunResult>)
    ensures StripAll(rs + ts) == StripAll(rs) + StripAll(ts)
  {
  }

  lemma {:induction false} AnalysesAgree(w: Suite, runs: map<string, RunResult>, noCache: bool,
                                         runs': map<string, RunResult>, noCache': bool, benchmarks: seq<string>)
    requires Regular(w) && SoundRuns(w, runs) && SoundRuns(w, runs') && Known(w, benchmarks)
    ensures var analyses := Analyses(w, benchmarks);
            var (runs1, results) := AnalysesRun(w, runs, noCache, analyses);
            var (runs1', results') := AnalysesRun(w, runs', noCache', analyses);
            SoundRuns(w, runs1) && SoundRuns(w, runs1') && StripAll(results) == StripAll(results')
    decreases |benchmarks|
  {
    if benchmarks == [] {
    } else {
      hide SoundRuns, BenchmarkRequests, RequestsRun;
      var b := benchmarks[0];
      var a := AnalysisOf(w, b);
      assert Analyses(w, benchmarks)[0] == a && Analyses(w, benchmarks)[1..] == Analyses(w, benchmarks[1..]);
      if a.error.Some? {
        AnalysesAgree(w, runs, noCache, runs', noCache', benchmarks[1..]);
      } else {
        RequestsAgree(w, runs, noCache, runs', noCache', b, BenchmarkRequests(a), None, None);
        var (runs1, first) := RequestsRun(w, runs, noCache, a, BenchmarkRequests(a), None);
        var (runs1', first') := RequestsRun(w, runs', noCache', a, BenchmarkRequests(a), None);
        AnalysesAgree(w, runs1, noCache, runs1', noCache', benchmarks[1..]);
        StripConcat(first, AnalysesRun(w, runs1, noCache, Analyses(w, benchmarks[1..])).1);
        StripConcat(first', AnalysesRun(w, runs1', noCache', Analyses(w, benchmarks[1..])).1);
      }
    }
  }

  function Analyses(w: Suite, benchmarks: seq<string>): (s: seq<Analysis>)
    ensures |s| == |benchmarks| && forall i | 0 <= i < |benchmarks| :: s[i] == AnalysisOf(w, benchmarks[i])
  {
    seq(|benchmarks|, i requires 0 <= i < |benchmarks| => AnalysisOf(w, benchmarks[i]))
  }

  lemma AnalysisKeyInjective(w: Suite, b: string, c: string)
    requires Regular(w) && b in w.names && c in w.names
    requires AnalysisCacheKey(w, b, w.specOf(b).sourcePath) == AnalysisCacheKey(w, c, w.specOf(c).sourcePath)
    ensures b == c
  {
    var p := w.before + [b, w.specOf(b).sourcePath] + w.analysisAfter;
    var q := w.before + [c, w.specOf(c).sourcePath] + w.analysisAfter;
    assert NoBars(p) && NoBars(q) && Join(p) == Join(q);
    JoinInjective(p, q);
    assert p[|w.before|] == q[|w.before|];
  }

  /** Analyses, cached or not, are what the compiler reports. */
  lemma {:induction false} AnalyzeAllSound(w: Suite, stored: map<string, Analysis>, noCache: bool,
                                           benchmarks: seq<string>)
    requires Regular(w) && SoundAnalyses(w, stored) && Known(w, benchmarks)
    ensures var (stored1, analyses) := AnalyzeAll(w, stored, noCache, benchmarks);
            SoundAnalyses(w, stored1) && analyses == Analyses(w, benchmarks)
    decreases |benchmarks|
  {
    if benchmarks == [] {
    } else {
      var b := benchmarks[0];
      var (stored1, a) := AnalysisStep(w, stored, noCache, b);
      assert w.specOf(b).benchmark == b;
      forall c | c in w.names && AnalysisCacheKey(w, c, w.specOf(c).sourcePath) in stored1
        ensures stored1[AnalysisCacheKey(w, c, w.specOf(c).sourcePath)] == AnalysisOf(w, c)
      {
        if AnalysisCacheKey(w, c, w.specOf(c).sourcePath) == AnalysisCacheKey(w, b, w.specOf(b).sourcePath) {
          AnalysisKeyInjective(w, b, c);
        }
      }
      assert a == AnalysisOf(w, b);
      AnalyzeAllSound(w, stored1, noCache, benchmarks[1..]);
      assert Analyses(w, benchmarks) == [a] + Analyses(w, benchmarks[1..]);
    }
  }

  /** A session on a sound store reports what a cold one does, and leaves a sound store. */
  lemma SessionSound(w: Suite, s: Store, session: Session)
    requires Regular(w) && SoundAnalyses(w, s.analyses) && SoundRuns(w, s.runs)
    requires Known(w, session.benchmarks)
    ensures var (s1, results) := SessionRun(w, s, session);
            SoundAnalyses(w, s1.analyses) && SoundRuns(w, s1.runs)
            && StripAll(results) == StripAll(ColdSession(w, session.benchmarks))
  {
    AnalyzeAllSound(w, s.analyses, session.noCache, session.benchmarks);
    AnalyzeAllSound(w, map[], true, session.benchmarks);
    AnalysesAgree(w, s.runs, session.noCache, map[], true, session.benchmarks);
  }

  /**
   Cache refinement: starting from a sound cache, every session of every sequence of sessions,
   cached or not in any mix, reports the runs of a cold session, but for the cache mark.
   */
  lemma {:induction false} CacheRefinement(w: Suite, s: Store, sessions: seq<Session>)
    requires Regular(w) && SoundAnalyses(w, s.analyses) && SoundRuns(w, s.runs)
    requires forall i | 0 <= i < |sessions| :: Known(w, sessions[i].benchmarks)
    ensures var results := SessionsRun(w, s, sessions).1;
            |results| == |sessions|
            && forall i | 0 <= i < |sessions| ::
                StripAll(results[i]) == StripAll(ColdSession(w, sessions[i].benchmarks))
    decreases |sessions|
  {
    if sessions == [] {
    } else {
      hide SessionRun, ColdSession, SoundAnalyses, SoundRuns, StripAll;
      SessionSound(w, s, sessions[0]);
      var (s1, first) := SessionRun(w, s, sessions[0]);
      CacheRefinement(w, s1, sessions[1..]);
    }
  }

  lemma EmptyStoreSound(w: Suite)
    ensures SoundAnalyses(w, map[]) && SoundRuns(w, map[])
  {
  }

  /** From an empty cache on, every session of every sequence reports the runs of a cold one, but for the cache mark. */
  lemma CacheRefinementFromEmpty(w: Suite, sessions: seq<Session>)
    requires Regular(w) && forall i | 0 <= i < |sessions| :: Known(w, sessions[i].benchmarks)
    ensures var results := SessionsRun(w, Store(map[], map[]), sessions).1;
            |results| == |sessions|
            && forall i | 0 <= i < |sessions| ::
                StripAll(results[i]) == StripAll(ColdSession(w, sessions[i].benchmarks))
  {
    EmptyStoreSound(w);
    CacheRefinement(w, Store(map[], map[]), sessions);
  }

  // ----- the runner

  function TotalRuns(analyses: seq<Analysis>): nat
    decreases |analyses|
  {
    if analyses == [] then 0 else
    (if analyses[0].error.Some? then 0 else |BenchmarkRequests(analyses[0])|) + TotalRuns(analyses[1..])
  }

  lemma {:induction false} RequestCount(w: Suite, runs: map<string, RunResult>, noCache: bool, a: Analysis,
                                        rs: seq<Request>, baseline: Option<RunResult>)
    ensures |RequestsRun(w, runs, noCache, a, rs, baseline).1| == |rs|
    decreases |rs|
  {
    if rs == [] {
    } else {
      var (runs1, result) := RequestStep(w, runs, noCache, a, rs[0], baseline);
      RequestCount(w, runs1, noCache, a, rs[1..], NextBaseline(rs[0], result, baseline));
    }
  }

  lemma {:induction false} RunCount(w: Suite, runs: map<string, RunResult>, noCache: bool, analyses: seq<Analysis>)
    ensures |AnalysesRun(w, runs, noCache, analyses).1| == TotalRuns(analyses)
    decreases |analyses|
  {
    if analyses == [] {
    } else {
      if analyses[0].error.Some? {
        RunCount(w, runs, noCache, analyses[1..]);
      } else {
        RequestCount(w, runs, noCache, analyses[0], BenchmarkRequests(analyses[0]), None);
        RunCount(w, RequestsRun(w, runs, noCache, analyses[0], BenchmarkRequests(analyses[0]), None).0, noCache,
                 analyses[1..]);
      }
    }
  }

  /** The (completed, total) pairs of the progress callback: 1 to `done`, always out of `total`. */
  function Progress(done: nat, total: nat): seq<(nat, nat)> {
    seq(done, i requires 0 <= i < done => (i + 1, total))
  }

  /** A tail of the work, with what came before it put in front. */
  function After<R, S>(results: seq<S>, tail: (R, seq<S>)): (R, seq<S>) {
    (tail.0, results + tail.1)
  }

  lemma AfterEnds<R, S>(results: seq<S>, tail: (R, seq<S>))
    ensures After([], tail) == tail
    ensures tail.1 == [] ==> After(results, tail) == (tail.0, results)
  {
    assert [] + tail.1 == tail.1;
    if tail.1 == [] {
      assert results + tail.1 == results;
    }
  }

  lemma AnalyzeNext(w: Suite, stored: map<string, Analysis>, noCache: bool, bs: seq<string>, i: nat,
                    results: seq<Analysis>)
    requires i < |bs|
    ensures var (stored1, a) := AnalysisStep(w, stored, noCache, bs[i]);
            After(results, AnalyzeAll(w, stored, noCache, bs[i..]))
            == After(results + [a], AnalyzeAll(w, stored1, noCache, bs[i + 1..]))
  {
    assert bs[i..][0] == bs[i] && bs[i..][1..] == bs[i + 1..];
    var (stored1, a) := AnalysisStep(w, stored, noCache, bs[i]);
    var rest := AnalyzeAll(w, stored1, noCache, bs[i + 1..]).1;
    assert results + ([a] + rest) == (results + [a]) + rest;
  }

  lemma RequestsNext(w: Suite, runs: map<string, RunResult>, noCache: bool, a: Analysis, rs: seq<Request>, i: nat,
                     baseline: Option<RunResult>, results: seq<RunResult>)
    requires i < |rs|
    ensures var (runs1, result) := RequestStep(w, runs, noCache, a, rs[i], baseline);
            After(results, RequestsRun(w, runs, noCache, a, rs[i..], baseline))
            == After(results + [result],
                     RequestsRun(w, runs1, noCache, a, rs[i + 1..], NextBaseline(rs[i], result, baseline)))
  {
    hide RequestStep;
    assert rs[i..][0] == rs[i] && rs[i..][1..] == rs[i + 1..];
    var (runs1, result) := RequestStep(w, runs, noCache, a, rs[i], baseline);
    var rest := RequestsRun(w, runs1, noCache, a, rs[i + 1..], NextBaseline(rs[i], result, baseline)).1;
    assert results + ([result] + rest) == (results + [result]) + rest;
  }

  lemma AnalysesNext(w: Suite, runs: map<string, RunResult>, noCache: bool, found: seq<Analysis>, i: nat,
                     results: seq<RunResult>)
    requires i < |found|
    ensures After(results, AnalysesRun(w, runs, noCache, found[i..]))
            == if found[i].error.Some? then After(results, AnalysesRun(w, runs, noCache, found[i + 1..]))
               else
                 var (runs1, part) := RequestsRun(w, runs, noCache, found[i], BenchmarkRequests(found[i]), None);
                 After(results + part, AnalysesRun(w, runs1, noCache, found[i + 1..]))
  {
    hide RequestsRun, BenchmarkRequests;
    assert found[i..][0] == found[i] && found[i..][1..] == found[i + 1..];
    if found[i].error == None {
      var (runs1, part) := RequestsRun(w, runs, noCache, found[i], BenchmarkRequests(found[i]), None);
      var rest := AnalysesRun(w, runs1, noCache, found[i + 1..]).1;
      assert results + (part + rest) == (results + part) + rest;
    }
  }

  lemma ProgressNext(done: nat, total: nat)
    ensures Progress(done, total) + [(done + 1, total)] == Progress(done + 1, total)
  {
  }

  class PipelineRunner {
    const w: Suite
    const noCache: bool
    var analyses: map<string, Analysis>
    var runs: map<string, RunResult>
    var progress: seq<(nat, nat)>

    constructor (w: Suite, noCache: bool, store: Store)
      ensures this.w == w && this.noCache == noCache && progress == []
      ensures analyses == store.analyses && runs == store.runs
    {
      this.w, this.noCache := w, noCache;
      analyses, runs, progress := store.analyses, store.runs, [];
    }

    method LoadOrAnalyze(benchmark: string) returns (a: Analysis)
      modifies this`analyses
      ensures (analyses, a) == AnalysisStep(w, old(analyses), noCache, benchmark)
      ensures var key := AnalysisCacheKey(w, w.specOf(benchmark).benchmark, w.specOf(benchmark).sourcePath);
              if !noCache && key in old(analyses) then a == old(analyses)[key] && analyses == old(analyses)
              else a == w.analyze(w.specOf(benchmark)) && analyses == old(analyses)[key := a]
    {
      var spec := w.specOf(benchmark);
      var key := AnalysisCacheKey(w, spec.benchmark, spec.sourcePath);
      if !noCache {
        if key in analyses {
          return analyses[key];
        }
      }
      a := w.analyze(spec);
      analyses := analyses[key := a];
    }

    method RunAnalyses(benchmarks: seq<string>) returns (results: seq<Analysis>)
      modifies this`analyses
      ensures (analyses, results) == AnalyzeAll(w, old(analyses), noCache, benchmarks)
    {
      hide AnalysisStep, After;
      results := [];
      AfterEnds(results, AnalyzeAll(w, analyses, noCache, benchmarks));
      assert benchmarks[0..] == benchmarks;
      for i := 0 to |benchmarks|
        invariant AnalyzeAll(w, old(analyses), noCache, benchmarks)
                  == After(results, AnalyzeAll(w, analyses, noCache, benchmarks[i..]))
      {
        AnalyzeNext(w, analyses, noCache, benchmarks, i, results);
        var a := LoadOrAnalyze(benchmarks[i]);
        results := results + [a];
      }
      AfterEnds(results, AnalyzeAll(w, analyses, noCache, benchmarks[|benchmarks|..]));
    }

    method RunRequest(a: Analysis, r: Request, baseline: Option<RunResult>) returns (result: RunResult)
      modifies this`runs
      ensures (runs, result) == RequestStep(w, old(runs), noCache, a, r, baseline)
      ensures var key := RunCacheKey(w, r);
              key in runs && (forall other | other != key :: other in runs <==> other in old(runs))
              && (result.request, result.kernelCycles, result.details)
                 == (runs[key].request, runs[key].kernelCycles, runs[key].details)
              && (if !noCache && key in old(runs) then runs == old(runs) && result.cacheHit
                  else (result.kernelCycles, result.details) == w.execute(a, r) && result.request == r
                       && !result.cacheHit)
      ensures baseline.Some? && baseline.value.kernelCycles.Some? && result.kernelCycles.Some?
              && result.request.mode == Forced ==>
                var b, k := baseline.value.kernelCycles.value, result.kernelCycles.value;
                result.deltaVsDefault == Some(k - b)
                && (k > 0 ==> result.speedupVsDefault.Some? && result.speedupVsDefault.value * k as real == b as real)
    {
      var key := RunCacheKey(w, r);
      if !noCache {
        if key in runs {
          var cached := runs[key].(cacheHit := true);
          return WithBaseline(cached, baseline);
        }
      }
      result := Fresh(w, a, r);
      runs := runs[key := result];
      result := WithBaseline(result, baseline);
    }

    /** The runs of one benchmark, counted on from `done`. */
    method RunBenchmark(a: Analysis, done: nat, total: nat) returns (results: seq<RunResult>)
      requires progress == Progress(done, total)
      modifies this`runs, this`progress
      ensures (runs, results) == RequestsRun(w, old(runs), noCache, a, BenchmarkRequests(a), None)
      ensures progress == Progress(done + |results|, total)
    {
      var requests := BenchmarkRequests(a);
      var baseline: Option<RunResult> := None;
      var completed := done;
      results := [];
      hide RequestStep, RequestsRun, After, Progress, BenchmarkRequests;
      AfterEnds(results, RequestsRun(w, runs, noCache, a, requests, baseline));
      assert requests[0..] == requests;
      for i := 0 to |requests|
        invariant completed == done + |results| && progress == Progress(completed, total)
        invariant RequestsRun(w, old(runs), noCache, a, requests, None)
                  == After(results, RequestsRun(w, runs, noCache, a, requests[i..], baseline))
      {
        var r := requests[i];
        RequestsNext(w, runs, noCache, a, requests, i, baseline, results);
        var result := RunRequest(a, r, baseline);
        results := results + [result];
        if r.mode == Default {
          baseline := Some(result);
        }
        ProgressNext(completed, total);
        completed := completed + 1;
        progress := progress + [(completed, total)];
      }
      RequestsEnd(w, runs, noCache, a, baseline);
      assert requests[|requests|..] == [];
      AfterEnds(results, RequestsRun(w, runs, noCache, a, requests[|requests|..], baseline));
    }

    /** A whole session; the progress callback counts exactly 1 to the number of runs. */
    method Run(benchmarks: seq<string>) returns (results: seq<RunResult>)
      requires progress == []
      modifies this
      ensures (Store(analyses, runs), results)
              == SessionRun(w, old(Store(analyses, runs)), Session(noCache, benchmarks))
      ensures progress == Progress(|results|, |results|)
    {
      var found := RunAnalyses(benchmarks);
      var total := TotalRuns(found);
      ghost var runs0 := runs;
      results := [];
      hide RequestsRun, AnalysesRun, After, AnalyzeAll, BenchmarkRequests, TotalRuns;
      AfterEnds(results, AnalysesRun(w, runs, noCache, found));
      assert found[0..] == found;
      for i := 0 to |found|
        invariant analyses == AnalyzeAll(w, old(analyses), noCache, benchmarks).0
        invariant progress == Progress(|results|, total)
        invariant AnalysesRun(w, runs0, noCache, found) == After(results, AnalysesRun(w, runs, noCache, found[i..]))
      {
        AnalysesNext(w, runs, noCache, found, i, results);
        if found[i].error == None {
          var part := RunBenchmark(found[i], |results|, total);
          results := results + part;
        }
      }
      AnalysesEnd(w, runs, noCache);
      AfterEnds(results, AnalysesRun(w, runs, noCache, found[|found|..]));
      RunCount(w, runs0, noCache, found);
    }
  }

  lemma RequestsEnd(w: Suite, runs: map<string, RunResult>, noCache: bool, a: Analysis, baseline: Option<RunResult>)
    ensures RequestsRun(w, runs, noCache, a, [], baseline) == (runs, [])
  {
  }

  lemma AnalysesEnd(w: Suite, runs: map<string, RunResult>, noCache: bool)
    ensures AnalysesRun(w, runs, noCache, []) == (runs, [])
  {
  }
}
