/** The downloader of main.go: a reader, a read counter, two clock readings
    and the average and peak rates, updated in place by the read loop.
    Clock readings are supplied by the caller as reals (seconds); each
    recomputation of the rates reads the clock twice, first for the time
    since the start and then for "now", as one Tick. */
module Speedtest {
  import opened Units
  import opened Reader
  import opened Download

  /** The two clock readings of one recomputation of the rates. */
  datatype Tick = Tick(since: real, now: real)

  /** The three figures of a progress or summary line: total downloaded,
      average rate and peak rate, each with the unit kbMb picks. */
  datatype Report = Report(total: Scaled, avg: Scaled, max: Scaled)

  /** The final summary line: the last figures and the time since start. */
  datatype Summary = Summary(report: Report, elapsed: real)

  /** How downSpeed ends: with its summary line, or through log.Fatal. */
  datatype Outcome = Finished(summary: Summary) | Fatal(err: string)

  /** Max as the code computes it: the new value replaces the old one only
      when strictly greater. */
  function Max(m: real, x: real): real
  {
    if x > m then x else m
  }

  /** The peak of a history of instantaneous rates, starting from 0. */
  function Peak(rates: seq<real>): real
  {
    if rates == [] then 0.0 else Max(Peak(rates[..|rates| - 1]), rates[|rates| - 1])
  }

  lemma PeakAppend(rates: seq<real>, x: real)
    ensures Peak(rates + [x]) == Max(Peak(rates), x)
  {
    assert (rates + [x])[..|rates|] == rates;
  }

  /** The peak is at least 0 and at least every rate of the history. */
  lemma {:induction false} PeakBoundsAll(rates: seq<real>)
    ensures Peak(rates) >= 0.0
    ensures forall i :: 0 <= i < |rates| ==> rates[i] <= Peak(rates)
  {
    if rates != [] {
      var init := rates[..|rates| - 1];
      PeakBoundsAll(init);
      assert forall i :: 0 <= i < |init| ==> rates[i] == init[i];
    }
  }

  /** The peak of a non-empty history of positive rates is one of them. */
  lemma {:induction false} PeakAttained(rates: seq<real>)
    requires rates != []
    requires forall i :: 0 <= i < |rates| ==> rates[i] > 0.0
    ensures exists i :: 0 <= i < |rates| && Peak(rates) == rates[i]
  {
    var init := rates[..|rates| - 1];
    if init == [] {
      assert Peak(rates) == rates[0];
    } else if rates[|rates| - 1] <= Peak(init) {
      PeakAttained(init);
      var i :| 0 <= i < |init| && Peak(init) == init[i];
      assert Peak(rates) == rates[i];
    } else {
      assert Peak(rates) == rates[|rates| - 1];
    }
  }

  /** A history never loses its peak: extending it cannot lower it. */
  lemma {:induction false} PeakMonotone(rates: seq<real>, more: seq<real>)
    ensures Peak(rates) <= Peak(rates + more)
    decreases |more|
  {
    if more != [] {
      var init := more[..|more| - 1];
      var last := more[|more| - 1];
      PeakMonotone(rates, init);
      assert rates + more == (rates + init) + [last];
      PeakAppend(rates + init, last);
      assert Peak(rates + more) == Max(Peak(rates + init), last);
    } else {
      assert rates + more == rates;
    }
  }

  /** The instantaneous rate of one chunk of `bufKb` KB read between two
      clock readings. */
  function InstantRate(bufKb: int, from: real, to: real): real
    requires from < to
  {
    bufKb as real / (to - from)
  }

  /** The "now" reading before the k-th tick: the previous tick's, or the
      downloader's `prev` for the first. */
  function PrevNow(prev: real, ticks: seq<Tick>, k: nat): real
    requires k <= |ticks|
  {
    if k == 0 then prev else ticks[k - 1].now
  }

  /** The k-th "now" reading lies after the one before it. */
  predicate NowAfterPrev(prev: real, ticks: seq<Tick>, k: nat)
    requires k < |ticks|
  {
    PrevNow(prev, ticks, k) < ticks[k].now
  }

  /** Each "now" reading lies after the one before it, so that every
      instantaneous rate is defined. */
  predicate NowsIncrease(prev: real, ticks: seq<Tick>)
  {
    forall k :: 0 <= k < |ticks| ==> NowAfterPrev(prev, ticks, k)
  }

  /** Clock readings for which every rate is defined: each "since" reading
      lies after the start, and each "now" after the one before it. */
  predicate TicksOk(start: real, prev: real, ticks: seq<Tick>)
  {
    (forall k :: 0 <= k < |ticks| ==> start < ticks[k].since) && NowsIncrease(prev, ticks)
  }

  /** The instantaneous rate computed at the k-th tick. */
  function RateAt(bufKb: int, prev: real, ticks: seq<Tick>, k: nat): real
    requires k < |ticks| && NowsIncrease(prev, ticks)
  {
    assert NowAfterPrev(prev, ticks, k);
    InstantRate(bufKb, PrevNow(prev, ticks, k), ticks[k].now)
  }

  /** The instantaneous rates of the first k ticks, in order. */
  function RatesOf(bufKb: int, prev: real, ticks: seq<Tick>, k: nat): (rs: seq<real>)
    requires k <= |ticks| && NowsIncrease(prev, ticks)
    ensures |rs| == k
    ensures forall j :: 0 <= j < k ==> rs[j] == RateAt(bufKb, prev, ticks, j)
  {
    if k == 0 then [] else RatesOf(bufKb, prev, ticks, k - 1) + [RateAt(bufKb, prev, ticks, k - 1)]
  }

  /** The peak after m more reads of a run that began with peak `max0`,
      computed read by read as the loop does. */
  function PeakAfter(bufKb: int, max0: real, prev: real, ticks: seq<Tick>, m: nat): real
    requires m <= |ticks| && NowsIncrease(prev, ticks)
  {
    if m == 0 then max0 else Max(PeakAfter(bufKb, max0, prev, ticks, m - 1), RateAt(bufKb, prev, ticks, m - 1))
  }

  /** The peak of the whole rate history after m reads is the running peak
      the loop maintains, started from the peak before them. */
  lemma {:induction false} PeakOfRun(bufKb: int, rates0: seq<real>, prev: real, ticks: seq<Tick>, m: nat)
    requires m <= |ticks| && NowsIncrease(prev, ticks)
    ensures Peak(rates0 + RatesOf(bufKb, prev, ticks, m)) == PeakAfter(bufKb, Peak(rates0), prev, ticks, m)
  {
    if m == 0 {
      assert rates0 + RatesOf(bufKb, prev, ticks, 0) == rates0;
    } else {
      PeakOfRun(bufKb, rates0, prev, ticks, m - 1);
      var before := rates0 + RatesOf(bufKb, prev, ticks, m - 1);
      assert rates0 + RatesOf(bufKb, prev, ticks, m) == before + [RateAt(bufKb, prev, ticks, m - 1)];
      PeakAppend(before, RateAt(bufKb, prev, ticks, m - 1));
    }
  }

  /** The running peak never falls below where it started, and it is at
      least every rate computed along the way. */
  lemma {:induction false} PeakAfterBounds(bufKb: int, max0: real, prev: real, ticks: seq<Tick>, m: nat)
    requires m <= |ticks| && NowsIncrease(prev, ticks)
    ensures PeakAfter(bufKb, max0, prev, ticks, m) >= max0
    ensures forall j :: 0 <= j < m ==> RateAt(bufKb, prev, ticks, j) <= PeakAfter(bufKb, max0, prev, ticks, m)
  {
    if m > 0 {
      PeakAfterBounds(bufKb, max0, prev, ticks, m - 1);
    }
  }

  /** The running peak is either where it started or one of the rates
      computed along the way. */
  lemma {:induction false} PeakAfterAttained(bufKb: int, max0: real, prev: real, ticks: seq<Tick>, m: nat)
    requires m <= |ticks| && NowsIncrease(prev, ticks)
    ensures PeakAfter(bufKb, max0, prev, ticks, m) == max0 ||
      exists j :: 0 <= j < m && PeakAfter(bufKb, max0, prev, ticks, m) == RateAt(bufKb, prev, ticks, j)
  {
    if m > 0 {
      PeakAfterAttained(bufKb, max0, prev, ticks, m - 1);
      if RateAt(bufKb, prev, ticks, m - 1) <= PeakAfter(bufKb, max0, prev, ticks, m - 1) {
        assert PeakAfter(bufKb, max0, prev, ticks, m) == PeakAfter(bufKb, max0, prev, ticks, m - 1);
      }
    }
  }

  lemma QuotientNonnegative(a: real, b: real)
    requires a >= 0.0 && b > 0.0
    ensures a / b >= 0.0
  {
  }

  class Downloader {
    const cfg: Config
    /** the length of `buf`; its contents are not modelled */
    const bufLen: int
    const r: Stream
    var times: nat
    const start: real
    var prev: real
    var avgSpd: real
    var maxSpd: real

    ghost predicate Valid()
      reads this
    {
      ValidConfig(cfg) && bufLen == ChunkBytes(cfg) &&
      start <= prev && 0.0 <= avgSpd && 0.0 <= maxSpd
    }

    /** The three figures of speedstr, as of now. */
    function Figures(): Report
      reads this
    {
      Report(KbMb((times * cfg.bufKb) as real), KbMb(avgSpd), KbMb(maxSpd))
    }

    /** newDownloader: a fresh counter, both timestamps at `now`, both rates
        zero, so the peak is that of the empty rate history. */
    constructor (cfg: Config, r: Stream, now: real)
      requires ValidConfig(cfg)
      ensures Valid()
      ensures this.cfg == cfg && this.r == r && bufLen == 1024 * cfg.bufKb
      ensures times == 0 && start == now && prev == now
      ensures avgSpd == 0.0 && maxSpd == 0.0 && maxSpd == Peak([])
    {
      this.cfg := cfg;
      this.r := r;
      bufLen := 1024 * cfg.bufKb;
      times := 0;
      start := now;
      prev := now;
      avgSpd := 0.0;
      maxSpd := 0.0;
    }

    /** speeds: the average over the whole session, the instantaneous rate of
        the last chunk, the peak raised to it when it is higher, and `prev`
        advanced to now. */
    method Speeds(tick: Tick)
      requires Valid()
      requires start < tick.since && prev < tick.now
      modifies this
      ensures Valid()
      ensures avgSpd == (times * cfg.bufKb) as real / (tick.since - start)
      ensures maxSpd == Max(old(maxSpd), InstantRate(cfg.bufKb, old(prev), tick.now))
      ensures maxSpd >= old(maxSpd) && maxSpd >= InstantRate(cfg.bufKb, old(prev), tick.now)
      ensures prev == tick.now
      ensures times == old(times)
    {
      var elapsed := tick.since - start;
      var now := tick.now;
      var total := (times * cfg.bufKb) as real;
      QuotientNonnegative(total, elapsed);
      avgSpd := total / elapsed;
      var curr := cfg.bufKb as real / (now - prev);
      if curr > maxSpd {
        maxSpd := curr;
      }
      prev := now;
    }

    /** speedstr: with `calculate` (Go's `calc` parameter; `calc` is a Dafny
        keyword) the rates are recomputed first; without it nothing changes.
        Either way the figures are those of the state after. */
    method SpeedStr(calculate: bool, tick: Tick) returns (rep: Report)
      requires Valid()
      requires calculate ==> start < tick.since && prev < tick.now
      modifies this
      ensures Valid()
      ensures !calculate ==> unchanged(this)
      ensures calculate ==> avgSpd == (times * cfg.bufKb) as real / (tick.since - start)
      ensures calculate ==> maxSpd == Max(old(maxSpd), InstantRate(cfg.bufKb, old(prev), tick.now))
      ensures calculate ==> prev == tick.now
      ensures times == old(times)
      ensures rep == Figures()
      ensures rep.total == KbMb((times * cfg.bufKb) as real)
    {
      if calculate {
        Speeds(tick);
      }
      rep := Figures();
    }

    /** One pass of the read loop up to its exit tests: read a chunk, count
        it whatever the read reported, recompute the rates and produce the
        progress figures. */
    method ReadChunk(tick: Tick) returns (res: ReadResult, line: Report)
      requires Valid()
      requires start < tick.since && prev < tick.now
      modifies this, r
      ensures Valid()
      ensures res == ResultAt(r.results, old(r.pos)) && r.pos == old(r.pos) + 1
      ensures times == old(times) + 1
      ensures avgSpd == (times * cfg.bufKb) as real / (tick.since - start)
      ensures maxSpd == Max(old(maxSpd), InstantRate(cfg.bufKb, old(prev), tick.now))
      ensures prev == tick.now
      ensures line == Figures()
      ensures line.total == KbMb((times * cfg.bufKb) as real)
    {
      res := r.ReadFull();
      times := times + 1;
      line := SpeedStr(true, tick);
    }

    /** The progress line printed after the (j+1)-th read of a run that began
        with `t0` reads counted, peak rate `max0` and last "now" `prev0`:
        the total of t0+j+1 chunks, the average over the time since the start
        at that read, and the peak of every rate computed up to that read. */
    function ProgressLine(t0: int, max0: real, prev0: real, ticks: seq<Tick>, j: nat): Report
      requires j < |ticks| && TicksOk(start, prev0, ticks)
    {
      var total := ((t0 + j + 1) * cfg.bufKb) as real;
      Report(KbMb(total), KbMb(total / (ticks[j].since - start)),
             KbMb(PeakAfter(cfg.bufKb, max0, prev0, ticks, j + 1)))
    }

    /** The figures after the (k+1)-th read of a run are its progress line. */
    lemma LineAfterRead(t0: int, max0: real, prev0: real, ticks: seq<Tick>, k: nat, line: Report)
      requires k < |ticks| && TicksOk(start, prev0, ticks)
      requires times == t0 + k + 1
      requires avgSpd == (times * cfg.bufKb) as real / (ticks[k].since - start)
      requires maxSpd == Max(PeakAfter(cfg.bufKb, max0, prev0, ticks, k), RateAt(cfg.bufKb, prev0, ticks, k))
      requires line == Figures()
      ensures line == ProgressLine(t0, max0, prev0, ticks, k)
    {
    }

    /** downSpeed: reads chunk after chunk, counting each read and recomputing
        the rates after it, until the body ends, a read fails or the cap is
        reached. `ticks` are the clock readings of the reads, `endAt` the one
        of the summary line. The peak at the end is the running peak over the
        rates of the run (PeakAfter), which PeakOfRun equates with the peak
        of the whole rate history. */
    method DownSpeed(ticks: seq<Tick>, endAt: real) returns (progress: seq<Report>, o: Outcome)
      requires Valid()
      requires |ticks| >= Reads(cfg, r.results, r.pos, times)
      requires TicksOk(start, prev, ticks)
      modifies this, r
      ensures Valid()
      ensures var n := Reads(cfg, r.results, old(r.pos), old(times));
        r.pos == old(r.pos) + n && times == old(times) + n
      ensures o.Fatal? <==> FinalStop(cfg, r.results, old(r.pos), old(times)).ReadError?
      ensures o.Fatal? ==> FinalStop(cfg, r.results, old(r.pos), old(times)) == ReadError(o.err)
      ensures o.Finished? ==> o.summary == Summary(Figures(), endAt - start)
      ensures |progress| == times - old(times)
      ensures forall k :: 0 <= k < |progress| ==>
        progress[k] == ProgressLine(old(times), old(maxSpd), old(prev), ticks, k)
      ensures var n := times - old(times);
        prev == ticks[n - 1].now && avgSpd == (times * cfg.bufKb) as real / (ticks[n - 1].since - start)
      ensures maxSpd == PeakAfter(cfg.bufKb, old(maxSpd), old(prev), ticks, times - old(times))
      ensures maxSpd >= old(maxSpd)
      ensures forall k :: 0 <= k < times - old(times) ==>
        RateAt(cfg.bufKb, old(prev), ticks, k) <= maxSpd
    {
      ghost var t0, prev0, max0 := times, prev, maxSpd;
      var failed, failure;
      progress, failed, failure := ReadLoop(ticks);
      PeakAfterBounds(cfg.bufKb, max0, prev0, ticks, times - t0);
      if failed {
        o := Fatal(failure);
      } else {
        var rep := SpeedStr(false, Tick(endAt, endAt));
        o := Finished(Summary(rep, endAt - start));
      }
    }

    /** The `for` loop of downSpeed: it reads until a read ends the body or
        fails, or the cap is reached, and reports whether it left through
        log.Fatal (`failed`) and with which error. */
    method ReadLoop(ticks: seq<Tick>) returns (progress: seq<Report>, failed: bool, failure: string)
      requires Valid()
      requires |ticks| >= Reads(cfg, r.results, r.pos, times)
      requires TicksOk(start, prev, ticks)
      modifies this, r
      ensures Valid()
      ensures var n := Reads(cfg, r.results, old(r.pos), old(times));
        r.pos == old(r.pos) + n && times == old(times) + n
      ensures failed <==> FinalStop(cfg, r.results, old(r.pos), old(times)).ReadError?
      ensures failed ==> FinalStop(cfg, r.results, old(r.pos), old(times)) == ReadError(failure)
      ensures |progress| == times - old(times)
      ensures forall k :: 0 <= k < |progress| ==>
        progress[k] == ProgressLine(old(times), old(maxSpd), old(prev), ticks, k)
      ensures var n := times - old(times);
        prev == ticks[n - 1].now && avgSpd == (times * cfg.bufKb) as real / (ticks[n - 1].since - start)
      ensures maxSpd == PeakAfter(cfg.bufKb, old(maxSpd), old(prev), ticks, times - old(times))
    {
      ghost var results, p0, t0 := r.results, r.pos, times;
      ghost var prev0, max0 := prev, maxSpd;
      ghost var n := Reads(cfg, results, p0, t0);
      var k := 0;
      progress := [];
      var done := false;
      failed, failure := false, "";
      while !done
        invariant Valid()
        invariant 0 <= k <= n && (done <==> k == n)
        invariant r.pos == p0 + k && times == t0 + k
        invariant !done ==> Reads(cfg, results, p0 + k, t0 + k) == n - k
        invariant done ==> (failed <==> FinalStop(cfg, results, p0, t0).ReadError?)
        invariant failed ==> FinalStop(cfg, results, p0, t0) == ReadError(failure)
        invariant prev == PrevNow(prev0, ticks, k) && start <= prev
        invariant k > 0 ==> avgSpd == (times * cfg.bufKb) as real / (ticks[k - 1].since - start)
        invariant maxSpd == PeakAfter(cfg.bufKb, max0, prev0, ticks, k)
        invariant |progress| == k
        invariant forall j :: 0 <= j < k ==> progress[j] == ProgressLine(t0, max0, prev0, ticks, j)
        decreases n - k
      {
        assert NowAfterPrev(prev0, ticks, k);
        var res, line := ReadChunk(ticks[k]);
        LineAfterRead(t0, max0, prev0, ticks, k, line);
        ReadsStep(cfg, results, p0, t0, k);
        progress := progress + [line];
        k := k + 1;
        if !res.Full? {
          if res.Eof? || res.Partial? {
            done := true;
          } else {
            // log.Fatal: the process ends here, without a summary line
            done, failed, failure := true, true, res.msg;
          }
        } else if !cfg.fullDownload && times * cfg.bufKb >= cfg.maxKb {
          done := true;
        }
      }
    }
  }
}
