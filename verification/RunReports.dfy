/**
 What a session of the run cache reports, run by run: the simulator's cycles, the comparison with the
 default run, and which runs come from the cache.
 */
module RunReports {
  import opened Common
  import opened RunCache

  // ----- the order of the runs

  function Flat(plans: seq<seq<string>>): seq<string> {
    if plans == [] then [] else plans[0] + Flat(plans[1..])
  }

  /** Where `v` first stands in `s`. */
  function First(s: seq<string>, v: string): (i: nat)
    ensures i <= |s| && (i < |s| ==> s[i] == v) && forall k | 0 <= k < i :: s[k] != v
  {
    if s == [] || s[0] == v then 0 else 1 + First(s[1..], v)
  }

  /** `vs` are the strings of `s`, each once, in the order in which they first come up. */
  ghost predicate InFirstOrder(s: seq<string>, vs: seq<string>) {
    (forall v :: v in vs <==> v in s) && Distinct(vs)
    && forall i, k | 0 <= i < k < |vs| :: First(s, vs[i]) < First(s, vs[k])
  }

  lemma FirstConcat(s: seq<string>, t: seq<string>, v: string)
    ensures v in s ==> First(s + t, v) == First(s, v) < |s|
    ensures v !in s ==> First(s + t, v) >= |s|
  {
    var i := First(s + t, v);
    assert forall k | 0 <= k < |s| :: (s + t)[k] == s[k];
    if v in s {
      var k :| 0 <= k < |s| && s[k] == v;
      assert First(s, v) < |s| && (s + t)[First(s, v)] == v;
    }
  }

  lemma {:induction false} AddNewOrder(front: seq<string>, seen: seq<string>, vfs: seq<string>)
    requires InFirstOrder(front, seen)
    ensures InFirstOrder(front + vfs, AddNew(seen, vfs))
    decreases |vfs|
  {
    hide InFirstOrder;
    if vfs == [] {
      assert front + vfs == front;
    } else {
      var next := if vfs[0] in seen then seen else seen + [vfs[0]];
      OneMore(front, seen, vfs[0]);
      AddNewOrder(front + [vfs[0]], next, vfs[1..]);
      assert front + [vfs[0]] + vfs[1..] == front + vfs;
    }
  }

  lemma OneMore(front: seq<string>, seen: seq<string>, v: string)
    requires InFirstOrder(front, seen)
    ensures InFirstOrder(front + [v], if v in seen then seen else seen + [v])
  {
    var next := if v in seen then seen else seen + [v];
    forall i, k | 0 <= i < k < |next| ensures First(front + [v], next[i]) < First(front + [v], next[k]) {
      FirstConcat(front, [v], next[i]);
      FirstConcat(front, [v], next[k]);
      if k < |seen| {
        assert First(front, seen[i]) < First(front, seen[k]);
      } else {
        assert seen[i] in front;
      }
    }
  }

  lemma {:induction false} AllVfsOrder(front: seq<string>, seen: seq<string>, plans: seq<seq<string>>)
    requires InFirstOrder(front, seen)
    ensures InFirstOrder(front + Flat(plans), AllVfs(plans, seen))
    decreases |plans|
  {
    hide InFirstOrder, AddNew;
    if plans == [] {
      assert front + Flat(plans) == front;
    } else {
      AddNewOrder(front, seen, plans[0]);
      AllVfsOrder(front + plans[0], AddNew(seen, plans[0]), plans[1..]);
      assert front + plans[0] + Flat(plans[1..]) == front + Flat(plans);
    }
  }

  /** Every factor a loop's plans offer is requested once, in the order in which the plans first offer them. */
  lemma VfsOrder(loop: Loop)
    ensures InFirstOrder(Flat(loop.plans), RequestedVfs(loop))
  {
    AllVfsOrder([], [], loop.plans);
    assert [] + Flat(loop.plans) == Flat(loop.plans);
  }

  lemma {:induction false} ForcedConcat(a: Analysis, s: seq<Loop>, t: seq<Loop>)
    ensures ForcedRequests(a, s + t) == ForcedRequests(a, s) + ForcedRequests(a, t)
    decreases |s|
  {
    if s == [] {
      assert s + t == t;
    } else {
      assert (s + t)[1..] == s[1..] + t;
      ForcedConcat(a, s[1..], t);
    }
  }

  /** The default run comes first, and each loop's runs after those of the loops ahead of it. */
  lemma RunsOrder(a: Analysis, k: nat)
    requires k < |a.loops|
    ensures var n, m := |ForcedRequests(a, a.loops[..k])|, |RequestedVfs(a.loops[k])|;
            var requests := BenchmarkRequests(a);
            requests[0] == Request(a.benchmark, a.sourcePath, a.category, None, None, Default)
            && 1 + n + m <= |requests| && requests[1..1 + n] == ForcedRequests(a, a.loops[..k])
            && forall i | 0 <= i < m ::
                 requests[1 + n + i] == Request(a.benchmark, a.sourcePath, a.category, Some(a.loops[k].index),
                                                Some(RequestedVfs(a.loops[k])[i]), Forced)
  {
    hide RequestedVfs;
    assert a.loops == a.loops[..k] + a.loops[k..] && a.loops[k..][0] == a.loops[k];
    ForcedConcat(a, a.loops[..k], a.loops[k..]);
  }

  // ----- what a session reports

  /** `x` reports the measurement `r` asks for, compared with the cycles the default run takes. */
  ghost predicate Reports(w: Suite, a: Analysis, r: Request, x: RunResult) {
    x.request == r && (x.kernelCycles, x.details) == w.execute(a, r)
    && Compared(w.execute(a, Request(a.benchmark, a.sourcePath, a.category, None, None, Default)).0, x)
  }

  /** `results` are the measurements of `rs`, each compared with `d`. */
  ghost predicate AllCompared(w: Suite, a: Analysis, rs: seq<Request>, d: Option<int>, results: seq<RunResult>) {
    |results| == |rs|
    && forall i | 0 <= i < |rs| ::
         results[i].request == rs[i] && (results[i].kernelCycles, results[i].details) == w.execute(a, rs[i])
         && Compared(d, results[i])
  }

  lemma ComparedCons(w: Suite, a: Analysis, r: Request, rs: seq<Request>, d: Option<int>, x: RunResult,
                     results: seq<RunResult>)
    requires x.request == r && (x.kernelCycles, x.details) == w.execute(a, r) && Compared(d, x)
    requires AllCompared(w, a, rs, d, results)
    ensures AllCompared(w, a, [r] + rs, d, [x] + results)
  {
    hide Compared;
  }

  lemma SameAsItself(x: Option<RunResult>)
    ensures SameBaseline(x, x)
  {
  }

  lemma RequestsCons(w: Suite, runs: map<string, RunResult>, noCache: bool, a: Analysis, rs: seq<Request>,
                     baseline: Option<RunResult>)
    requires rs != []
    ensures var (runs1, result) := RequestStep(w, runs, noCache, a, rs[0], baseline);
            var tail := RequestsRun(w, runs1, noCache, a, rs[1..], NextBaseline(rs[0], result, baseline));
            RequestsRun(w, runs, noCache, a, rs, baseline) == (tail.0, [result] + tail.1)
  {
    hide RequestStep, NextBaseline;
  }

  /** The requests behind the default run, compared with it one by one. */
  lemma {:induction false} ForcedReports(w: Suite, runs: map<string, RunResult>, noCache: bool, b: string,
                                         rs: seq<Request>, baseline: RunResult)
    requires Regular(w) && b in w.names && SoundRuns(w, runs)
    requires forall r | r in rs :: r in BenchmarkRequests(AnalysisOf(w, b)) && r.mode == Forced
    ensures AllCompared(w, AnalysisOf(w, b), rs, baseline.kernelCycles,
                        RequestsRun(w, runs, noCache, AnalysisOf(w, b), rs, Some(baseline)).1)
    decreases |rs|
  {
    if rs == [] {
    } else {
      assert rs[0] in rs && forall t | t in rs[1..] :: t in rs;
      hide SoundRuns, BenchmarkRequests, WithBaseline, Fresh, RequestStep, RequestsRun, Compared, Regular,
           AllCompared, AnalysisOf, SameBaseline, Strip;
      var a := AnalysisOf(w, b);
      RequestsCons(w, runs, noCache, a, rs, Some(baseline));
      SameAsItself(Some(baseline));
      RequestStepSound(w, runs, noCache, b, rs[0], Some(baseline), Some(baseline));
      var (runs1, result) := RequestStep(w, runs, noCache, a, rs[0], Some(baseline));
      ForcedReports(w, runs1, noCache, b, rs[1..], baseline);
      ComparedCons(w, a, rs[0], rs[1..], baseline.kernelCycles, result,
                   RequestsRun(w, runs1, noCache, a, rs[1..], Some(baseline)).1);
      assert [rs[0]] + rs[1..] == rs;
    }
  }

  lemma ForcedAreForced(a: Analysis, r: Request)
    requires r in ForcedRequests(a, a.loops)
    ensures r.mode == Forced
  {
    ForcedMembers(a, a.loops, r);
  }

  /**
   The results of one benchmark: the default run first, then every forced run with its cycles less the
   default run's, and the quotient of the two.
   */
  lemma BenchmarkReports(w: Suite, runs: map<string, RunResult>, noCache: bool, b: string)
    requires Regular(w) && b in w.names && SoundRuns(w, runs)
    ensures var a := AnalysisOf(w, b);
            var requests := BenchmarkRequests(a);
            var (runs1, results) := RequestsRun(w, runs, noCache, a, requests, None);
            SoundRuns(w, runs1)
            && |results| == |requests| && forall i | 0 <= i < |requests| :: Reports(w, a, requests[i], results[i])
  {
    var a := AnalysisOf(w, b);
    var requests, forced := BenchmarkRequests(a), ForcedRequests(a, a.loops);
    var first := Request(a.benchmark, a.sourcePath, a.category, None, None, Default);
    assert requests == [first] + forced && requests[1..] == forced && first in requests;
    forall r | r in forced ensures r in requests && r.mode == Forced {
      ForcedAreForced(a, r);
    }
    hide SoundRuns, BenchmarkRequests, ForcedRequests, WithBaseline, Fresh, RequestStep, Compared, Regular,
         AllCompared, Reports;
    RequestsAgree(w, runs, noCache, runs, noCache, b, requests, None, None);
    RequestStepSound(w, runs, noCache, b, first, None, None);
    var (runs1, result) := RequestStep(w, runs, noCache, a, first, None);
    DefaultCompared(result.kernelCycles, result);
    ForcedReports(w, runs1, noCache, b, forced, result);
    ComparedCons(w, a, first, forced, result.kernelCycles, result,
                 RequestsRun(w, runs1, noCache, a, forced, Some(result)).1);
    ComparedReport(w, a, requests, result.kernelCycles, RequestsRun(w, runs, noCache, a, requests, None).1);
  }

  lemma ComparedReport(w: Suite, a: Analysis, rs: seq<Request>, d: Option<int>, results: seq<RunResult>)
    requires AllCompared(w, a, rs, d, results)
    requires d == w.execute(a, Request(a.benchmark, a.sourcePath, a.category, None, None, Default)).0
    ensures |results| == |rs| && forall i | 0 <= i < |rs| :: Reports(w, a, rs[i], results[i])
  {
    hide Compared;
  }

  lemma DefaultCompared(d: Option<int>, x: RunResult)
    requires x.request.mode == Default && Compared(None, x)
    ensures Compared(d, x)
  {
  }

  function Requested(a: Analysis, rs: seq<Request>): (s: seq<(Analysis, Request)>)
    ensures |s| == |rs| && forall i | 0 <= i < |rs| :: s[i] == (a, rs[i])
  {
    seq(|rs|, i requires 0 <= i < |rs| => (a, rs[i]))
  }

  /** The runs of a session: those of every benchmark whose analysis succeeded, one benchmark after the other. */
  function Work(analyses: seq<Analysis>): seq<(Analysis, Request)> {
    if analyses == [] then []
    else if analyses[0].error.Some? then Work(analyses[1..])
    else Requested(analyses[0], BenchmarkRequests(analyses[0])) + Work(analyses[1..])
  }

  ghost predicate ReportsAll(w: Suite, work: seq<(Analysis, Request)>, results: seq<RunResult>) {
    |results| == |work| && forall i | 0 <= i < |work| :: Reports(w, work[i].0, work[i].1, results[i])
  }

  lemma ReportsConcat(w: Suite, us: seq<(Analysis, Request)>, xs: seq<RunResult>, vs: seq<(Analysis, Request)>,
                      ys: seq<RunResult>)
    requires ReportsAll(w, us, xs) && ReportsAll(w, vs, ys)
    ensures ReportsAll(w, us + vs, xs + ys)
  {
  }

  lemma {:induction false} AnalysesReport(w: Suite, runs: map<string, RunResult>, noCache: bool,
                                          benchmarks: seq<string>)
    requires Regular(w) && SoundRuns(w, runs) && Known(w, benchmarks)
    ensures var analyses := Analyses(w, benchmarks);
            ReportsAll(w, Work(analyses), AnalysesRun(w, runs, noCache, analyses).1)
    decreases |benchmarks|
  {
    if benchmarks == [] {
    } else {
      hide SoundRuns, BenchmarkRequests, RequestsRun, Reports, Regular;
      var a := AnalysisOf(w, benchmarks[0]);
      assert Analyses(w, benchmarks)[0] == a && Analyses(w, benchmarks)[1..] == Analyses(w, benchmarks[1..]);
      if a.error.Some? {
        AnalysesReport(w, runs, noCache, benchmarks[1..]);
      } else {
        BenchmarkReports(w, runs, noCache, benchmarks[0]);
        var (runs1, first) := RequestsRun(w, runs, noCache, a, BenchmarkRequests(a), None);
        AnalysesReport(w, runs1, noCache, benchmarks[1..]);
        assert ReportsAll(w, Requested(a, BenchmarkRequests(a)), first);
        hide ReportsAll;
        ReportsConcat(w, Requested(a, BenchmarkRequests(a)), first, Work(Analyses(w, benchmarks[1..])),
                      AnalysesRun(w, runs1, noCache, Analyses(w, benchmarks[1..])).1);
      }
    }
  }

  /**
   A session on a sound store, cached or not, reports for every run of every benchmark the cycles the
   simulator takes, and for every forced run its comparison with the benchmark's default run.
   */
  lemma SessionReports(w: Suite, s: Store, session: Session)
    requires Regular(w) && SoundAnalyses(w, s.analyses) && SoundRuns(w, s.runs) && Known(w, session.benchmarks)
    ensures ReportsAll(w, Work(Analyses(w, session.benchmarks)), SessionRun(w, s, session).1)
  {
    AnalyzeAllSound(w, s.analyses, session.noCache, session.benchmarks);
    AnalysesReport(w, s.runs, session.noCache, session.benchmarks);
  }

  // ----- what a session takes from the cache

  function Keys(w: Suite, rs: seq<Request>): (s: seq<string>)
    ensures |s| == |rs| && forall i | 0 <= i < |rs| :: s[i] == RunCacheKey(w, rs[i])
  {
    seq(|rs|, i requires 0 <= i < |rs| => RunCacheKey(w, rs[i]))
  }

  /** The keys of a session's runs. */
  function WorkKeys(w: Suite, analyses: seq<Analysis>): seq<string> {
    if analyses == [] then []
    else if analyses[0].error.Some? then WorkKeys(w, analyses[1..])
    else Keys(w, BenchmarkRequests(analyses[0])) + WorkKeys(w, analyses[1..])
  }

  function SetOf(keys: seq<string>): set<string> {
    set k | k in keys
  }

  /** A run comes from the cache exactly when caching is on and its key was stored before the run. */
  ghost predicate Hits(noCache: bool, stored: set<string>, keys: seq<string>, results: seq<RunResult>) {
    |results| == |keys|
    && forall i | 0 <= i < |keys| :: results[i].cacheHit <==> !noCache && (keys[i] in stored || keys[i] in keys[..i])
  }

  lemma HitsConcat(noCache: bool, stored: set<string>, ks: seq<string>, xs: seq<RunResult>, ls: seq<string>,
                   ys: seq<RunResult>)
    requires Hits(noCache, stored, ks, xs) && Hits(noCache, stored + SetOf(ks), ls, ys)
    ensures Hits(noCache, stored, ks + ls, xs + ys) && SetOf(ks + ls) == SetOf(ks) + SetOf(ls)
  {
    forall i | 0 <= i < |ks + ls|
      ensures (xs + ys)[i].cacheHit
              <==> !noCache && ((ks + ls)[i] in stored || (ks + ls)[i] in (ks + ls)[..i])
    {
      if i < |ks| {
        assert (ks + ls)[..i] == ks[..i];
      } else {
        assert (ks + ls)[..i] == ks + ls[..i - |ks|];
      }
    }
  }

  lemma KeysCons(w: Suite, rs: seq<Request>)
    requires rs != []
    ensures Keys(w, rs) == [RunCacheKey(w, rs[0])] + Keys(w, rs[1..])
  {
    hide RunCacheKey;
  }

  lemma RequestHit(w: Suite, runs: map<string, RunResult>, noCache: bool, a: Analysis, r: Request,
                   baseline: Option<RunResult>)
    ensures var (runs1, result) := RequestStep(w, runs, noCache, a, r, baseline);
            runs1.Keys == runs.Keys + SetOf([RunCacheKey(w, r)])
            && Hits(noCache, runs.Keys, [RunCacheKey(w, r)], [result])
  {
    hide RunCacheKey;
  }

  lemma {:induction false} RequestsHit(w: Suite, runs: map<string, RunResult>, noCache: bool, a: Analysis,
                                       rs: seq<Request>, baseline: Option<RunResult>)
    ensures var (runs1, results) := RequestsRun(w, runs, noCache, a, rs, baseline);
            runs1.Keys == runs.Keys + SetOf(Keys(w, rs)) && Hits(noCache, runs.Keys, Keys(w, rs), results)
    decreases |rs|
  {
    if rs == [] {
    } else {
      hide *;
      var (runs1, result) := RequestStep(w, runs, noCache, a, rs[0], baseline);
      RequestHit(w, runs, noCache, a, rs[0], baseline);
      RequestsHit(w, runs1, noCache, a, rs[1..], NextBaseline(rs[0], result, baseline));
      HitsConcat(noCache, runs.Keys, [RunCacheKey(w, rs[0])], [result], Keys(w, rs[1..]),
                 RequestsRun(w, runs1, noCache, a, rs[1..], NextBaseline(rs[0], result, baseline)).1);
      RequestsCons(w, runs, noCache, a, rs, baseline);
      KeysCons(w, rs);
    }
  }

  lemma {:induction false} AnalysesHit(w: Suite, runs: map<string, RunResult>, noCache: bool, analyses: seq<Analysis>)
    ensures var (runs1, results) := AnalysesRun(w, runs, noCache, analyses);
            runs1.Keys == runs.Keys + SetOf(WorkKeys(w, analyses))
            && Hits(noCache, runs.Keys, WorkKeys(w, analyses), results)
    decreases |analyses|
  {
    if analyses == [] {
    } else if analyses[0].error.Some? {
      AnalysesHit(w, runs, noCache, analyses[1..]);
    } else {
      hide RequestsRun, BenchmarkRequests, Hits;
      var a := analyses[0];
      RequestsHit(w, runs, noCache, a, BenchmarkRequests(a), None);
      var (runs1, first) := RequestsRun(w, runs, noCache, a, BenchmarkRequests(a), None);
      AnalysesHit(w, runs1, noCache, analyses[1..]);
      HitsConcat(noCache, runs.Keys, Keys(w, BenchmarkRequests(a)), first, WorkKeys(w, analyses[1..]),
                 AnalysesRun(w, runs1, noCache, analyses[1..]).1);
    }
  }

  lemma {:induction false} WorkKeysMembers(w: Suite, analyses: seq<Analysis>, key: string)
    ensures key in WorkKeys(w, analyses)
            <==> exists a, r ::
                   a in analyses && a.error == None && r in BenchmarkRequests(a) && key == RunCacheKey(w, r)
    decreases |analyses|
  {
    if analyses == [] {
    } else {
      hide BenchmarkRequests, RunCacheKey;
      WorkKeysMembers(w, analyses[1..], key);
      assert analyses == [analyses[0]] + analyses[1..];
      var rs := BenchmarkRequests(analyses[0]);
      if r :| r in rs && key == RunCacheKey(w, r) {
        var i :| 0 <= i < |rs| && rs[i] == r;
        assert Keys(w, rs)[i] == key;
      }
    }
  }

  function AnalysisKeys(w: Suite, benchmarks: seq<string>): (s: seq<string>)
    ensures |s| == |benchmarks|
    ensures forall i | 0 <= i < |benchmarks| ::
              s[i] == AnalysisCacheKey(w, w.specOf(benchmarks[i]).benchmark, w.specOf(benchmarks[i]).sourcePath)
  {
    seq(|benchmarks|, i requires 0 <= i < |benchmarks| =>
      AnalysisCacheKey(w, w.specOf(benchmarks[i]).benchmark, w.specOf(benchmarks[i]).sourcePath))
  }

  lemma {:induction false} AnalysesStored(w: Suite, stored: map<string, Analysis>, noCache: bool,
                                          benchmarks: seq<string>)
    ensures forall key :: key in AnalyzeAll(w, stored, noCache, benchmarks).0
                          <==> key in stored || key in AnalysisKeys(w, benchmarks)
    ensures !noCache && SetOf(AnalysisKeys(w, benchmarks)) <= stored.Keys ==>
              AnalyzeAll(w, stored, noCache, benchmarks).0 == stored
    decreases |benchmarks|
  {
    if benchmarks == [] {
    } else {
      hide AnalysisCacheKey;
      AnalysesStored(w, AnalysisStep(w, stored, noCache, benchmarks[0]).0, noCache, benchmarks[1..]);
      assert AnalysisKeys(w, benchmarks) == [AnalysisKeys(w, benchmarks)[0]] + AnalysisKeys(w, benchmarks[1..]);
    }
  }

  lemma {:induction false} RequestsStored(w: Suite, runs: map<string, RunResult>, a: Analysis, rs: seq<Request>,
                                          baseline: Option<RunResult>)
    requires SetOf(Keys(w, rs)) <= runs.Keys
    ensures RequestsRun(w, runs, false, a, rs, baseline).0 == runs
    decreases |rs|
  {
    if rs == [] {
    } else {
      hide RunCacheKey, WithBaseline;
      assert Keys(w, rs) == [RunCacheKey(w, rs[0])] + Keys(w, rs[1..]);
      var result := RequestStep(w, runs, false, a, rs[0], baseline).1;
      RequestsStored(w, runs, a, rs[1..], NextBaseline(rs[0], result, baseline));
    }
  }

  lemma {:induction false} RunsStored(w: Suite, runs: map<string, RunResult>, analyses: seq<Analysis>)
    requires SetOf(WorkKeys(w, analyses)) <= runs.Keys
    ensures AnalysesRun(w, runs, false, analyses).0 == runs
    decreases |analyses|
  {
    if analyses == [] {
    } else if analyses[0].error.Some? {
      RunsStored(w, runs, analyses[1..]);
    } else {
      hide RequestsRun, BenchmarkRequests;
      RequestsStored(w, runs, analyses[0], BenchmarkRequests(analyses[0]), None);
      RunsStored(w, runs, analyses[1..]);
    }
  }

  /** On a sound store, a session takes from the cache exactly the runs stored before, by it or by earlier ones. */
  lemma SessionHits(w: Suite, s: Store, session: Session)
    requires Regular(w) && SoundAnalyses(w, s.analyses) && Known(w, session.benchmarks)
    ensures Hits(session.noCache, s.runs.Keys, WorkKeys(w, Analyses(w, session.benchmarks)),
                 SessionRun(w, s, session).1)
  {
    AnalyzeAllSound(w, s.analyses, session.noCache, session.benchmarks);
    AnalysesHit(w, s.runs, session.noCache, Analyses(w, session.benchmarks));
  }

  /** Once a session has run, its benchmarks run again from the cache alone, and leave the cache as it is. */
  lemma WarmSession(w: Suite, s: Store, session: Session, again: Session)
    requires Regular(w) && SoundAnalyses(w, s.analyses) && SoundRuns(w, s.runs) && Known(w, session.benchmarks)
    requires !again.noCache && forall b | b in again.benchmarks :: b in session.benchmarks
    ensures var s1 := SessionRun(w, s, session).0;
            var (s2, results) := SessionRun(w, s1, again);
            s2 == s1 && forall x | x in results :: x.cacheHit
  {
    hide Regular, SoundAnalyses, SoundRuns, AnalysesRun, AnalyzeAll, WorkKeys, AnalysisKeys;
    var s1 := SessionRun(w, s, session).0;
    var all, some := Analyses(w, session.benchmarks), Analyses(w, again.benchmarks);
    SomeKnown(w, again.benchmarks, session.benchmarks);
    AnalyzeAllSound(w, s.analyses, session.noCache, session.benchmarks);
    AnalyzeAllSound(w, s1.analyses, false, again.benchmarks);
    AnalysesStored(w, s.analyses, session.noCache, session.benchmarks);
    AnalysesStored(w, s1.analyses, false, again.benchmarks);
    AnalysesHit(w, s.runs, session.noCache, all);
    AnalysesHit(w, s1.runs, false, some);
    SomeKeys(w, again.benchmarks, session.benchmarks);
    RunsStored(w, s1.runs, some);
  }

  lemma SomeKnown(w: Suite, some: seq<string>, all: seq<string>)
    requires Known(w, all) && forall b | b in some :: b in all
    ensures Known(w, some)
  {
    assert forall i | 0 <= i < |some| :: some[i] in some;
  }

  lemma SomeKeys(w: Suite, some: seq<string>, all: seq<string>)
    requires forall b | b in some :: b in all
    ensures SetOf(WorkKeys(w, Analyses(w, some))) <= SetOf(WorkKeys(w, Analyses(w, all)))
    ensures SetOf(AnalysisKeys(w, some)) <= SetOf(AnalysisKeys(w, all))
  {
    hide BenchmarkRequests, RunCacheKey, AnalysisCacheKey, WorkKeys;
    forall key | key in WorkKeys(w, Analyses(w, some)) ensures key in WorkKeys(w, Analyses(w, all)) {
      WorkKeysMembers(w, Analyses(w, some), key);
      WorkKeysMembers(w, Analyses(w, all), key);
      SomeOfAll(w, some, all);
    }
    forall key | key in AnalysisKeys(w, some) ensures key in AnalysisKeys(w, all) {
      var i :| 0 <= i < |some| && AnalysisKeys(w, some)[i] == key;
      assert some[i] in some;
      var k :| 0 <= k < |all| && all[k] == some[i];
      assert AnalysisKeys(w, all)[k] == key;
    }
  }

  lemma SomeOfAll(w: Suite, some: seq<string>, all: seq<string>)
    requires forall b | b in some :: b in all
    ensures forall a | a in Analyses(w, some) :: a in Analyses(w, all)
  {
    forall a | a in Analyses(w, some) ensures a in Analyses(w, all) {
      var i :| 0 <= i < |some| && Analyses(w, some)[i] == a;
      assert some[i] in some;
      var k :| 0 <= k < |all| && all[k] == some[i];
      assert Analyses(w, all)[k] == a;
    }
  }
}
