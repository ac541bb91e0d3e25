/** What downSpeed does, as a function of the configuration and of what the
    body's reads return: how many reads it performs and why it stops. The
    loop in module Speedtest is proved against these definitions. */
module Download {
  import opened Reader

  /** The three settings of the program: chunk size and cap in KB, and
      whether to ignore the cap and read the whole body. */
  datatype Config = Config(bufKb: int, maxKb: int, fullDownload: bool)

  /** The values the program starts with: 25 KB chunks, a 200 KB cap. */
  const Defaults := Config(25, 200, false)

  /** A chunk of at least one KB; the program fixes it at 25. */
  predicate ValidConfig(cfg: Config)
  {
    cfg.bufKb > 0
  }

  /** The size of the read buffer in bytes. */
  function ChunkBytes(cfg: Config): int
  {
    1024 * cfg.bufKb
  }

  /** The cap test made after the `times`-th read. */
  predicate CapReached(cfg: Config, times: int)
  {
    !cfg.fullDownload && times * cfg.bufKb >= cfg.maxKb
  }

  /** Whether the loop leaves after a read with result `res` that brought the
      count to `times`: on any error (end of stream or not), or on the cap. */
  predicate StopsAfter(cfg: Config, res: ReadResult, times: int)
  {
    !res.Full? || CapReached(cfg, times)
  }

  /** The number of reads downSpeed performs when the body is at read `pos`
      and the downloader has counted `times` reads so far. It is at least
      one and never more than the reads left in the body plus the final EOF. */
  function Reads(cfg: Config, results: seq<ReadResult>, pos: nat, times: int): (n: nat)
    ensures n >= 1
    ensures pos <= |results| ==> n <= |results| - pos + 1
    decreases |results| - pos
  {
    if StopsAfter(cfg, ResultAt(results, pos), times + 1) then 1
    else 1 + Reads(cfg, results, pos + 1, times + 1)
  }

  /** Why the loop ended. */
  datatype Stop = EndOfStream | CapHit | ReadError(msg: string)

  /** The stop signalled by the read that ended the loop: io.EOF and
      io.ErrUnexpectedEOF end it normally, another error is fatal, and a
      full read can only have ended it through the cap. */
  function StopOf(res: ReadResult): Stop
  {
    match res
    case Full => CapHit
    case Partial(_) => EndOfStream
    case Eof => EndOfStream
    case Failed(m) => ReadError(m)
  }

  /** The result of the last read downSpeed performs. */
  function LastRead(cfg: Config, results: seq<ReadResult>, pos: nat, times: int): ReadResult
  {
    ResultAt(results, pos + Reads(cfg, results, pos, times) - 1)
  }

  /** Why downSpeed stops. */
  function FinalStop(cfg: Config, results: seq<ReadResult>, pos: nat, times: int): Stop
  {
    StopOf(LastRead(cfg, results, pos, times))
  }

  /** The loop stops at the FIRST read that ends it: every earlier read filled
      the buffer without reaching the cap, and the last one is an error or
      reaches the cap. So no read is attempted after an error. */
  lemma {:induction false} ReadsStopAtFirst(cfg: Config, results: seq<ReadResult>, pos: nat, times: int)
    ensures var n := Reads(cfg, results, pos, times);
      forall j :: pos <= j < pos + n - 1 ==>
        ResultAt(results, j).Full? && !CapReached(cfg, times + (j - pos) + 1)
    ensures StopsAfter(cfg, LastRead(cfg, results, pos, times), times + Reads(cfg, results, pos, times))
    decreases |results| - pos
  {
    if !StopsAfter(cfg, ResultAt(results, pos), times + 1) {
      var n := Reads(cfg, results, pos, times);
      ReadsStopAtFirst(cfg, results, pos + 1, times + 1);
      assert n == 1 + Reads(cfg, results, pos + 1, times + 1);
      forall j | pos <= j < pos + n - 1
        ensures ResultAt(results, j).Full? && !CapReached(cfg, times + (j - pos) + 1)
      {
        if j > pos {
          assert times + 1 + (j - (pos + 1)) + 1 == times + (j - pos) + 1;
        }
      }
    }
  }

  /** One pass of the loop, seen from its start at read `pos` with `times`
      counted: after the (k+1)-th read either the loop stops, and that read
      was its last, or the reads left drop by one. */
  lemma ReadsStep(cfg: Config, results: seq<ReadResult>, pos: nat, times: int, k: nat)
    requires k < Reads(cfg, results, pos, times)
    requires Reads(cfg, results, pos + k, times + k) == Reads(cfg, results, pos, times) - k
    ensures var res := ResultAt(results, pos + k);
      StopsAfter(cfg, res, times + k + 1) ==>
        Reads(cfg, results, pos, times) == k + 1 && LastRead(cfg, results, pos, times) == res
    ensures !StopsAfter(cfg, ResultAt(results, pos + k), times + k + 1) ==>
      Reads(cfg, results, pos + k + 1, times + k + 1) == Reads(cfg, results, pos, times) - k - 1
  {
  }

  /** The three ways out: the loop ends normally exactly when the last read
      reports io.EOF or io.ErrUnexpectedEOF, fatally exactly when it reports
      another error, and through the cap only when the cap is consulted and
      reached by the full count. */
  lemma FinalStopCases(cfg: Config, results: seq<ReadResult>, pos: nat, times: int)
    ensures var last := LastRead(cfg, results, pos, times);
      FinalStop(cfg, results, pos, times) == EndOfStream <==> (last.Eof? || last.Partial?)
    ensures var last := LastRead(cfg, results, pos, times);
      FinalStop(cfg, results, pos, times).ReadError? <==> last.Failed?
    ensures FinalStop(cfg, results, pos, times) == CapHit ==>
      !cfg.fullDownload && CapReached(cfg, times + Reads(cfg, results, pos, times))
  {
    ReadsStopAtFirst(cfg, results, pos, times);
  }

  /** max(1, ceil(maxKb / bufKb)): the least positive number of chunks whose
      size reaches the cap. */
  function ReadsUntilCap(cfg: Config): (c: int)
    requires ValidConfig(cfg)
    ensures c >= 1
    ensures c * cfg.bufKb >= cfg.maxKb
    ensures c > 1 ==> (c - 1) * cfg.bufKb < cfg.maxKb
  {
    if cfg.maxKb <= 0 then 1
    else
      var b := cfg.bufKb;
      var q := (cfg.maxKb + b - 1) / b;
      assert q * b + (cfg.maxKb + b - 1) % b == cfg.maxKb + b - 1;
      q
  }

  lemma MulMonotone(x: int, y: int, b: int)
    requires x <= y && b >= 0
    ensures x * b <= y * b
  {
    assert y * b == x * b + (y - x) * b;
  }

  /** The cap test after m reads succeeds exactly from the ReadsUntilCap-th
      read on. */
  lemma CapReachedIff(cfg: Config, m: int)
    requires ValidConfig(cfg) && !cfg.fullDownload && m >= 1
    ensures CapReached(cfg, m) <==> m >= ReadsUntilCap(cfg)
  {
    var c := ReadsUntilCap(cfg);
    if m >= c {
      MulMonotone(c, m, cfg.bufKb);
    } else {
      MulMonotone(m, c - 1, cfg.bufKb);
    }
  }

  lemma {:induction false} ReadsWithCapFrom(cfg: Config, results: seq<ReadResult>, pos: nat, t: nat)
    requires ValidConfig(cfg) && !cfg.fullDownload
    requires t < ReadsUntilCap(cfg)
    requires forall j :: pos <= j < pos + ReadsUntilCap(cfg) - t ==> ResultAt(results, j).Full?
    ensures Reads(cfg, results, pos, t) == ReadsUntilCap(cfg) - t
    ensures FinalStop(cfg, results, pos, t) == CapHit
    decreases ReadsUntilCap(cfg) - t
  {
    assert ResultAt(results, pos).Full?;
    CapReachedIff(cfg, t + 1);
    if t + 1 < ReadsUntilCap(cfg) {
      ReadsWithCapFrom(cfg, results, pos + 1, t + 1);
    }
  }

  /** With the cap consulted and a body that does not end early, a fresh
      downloader performs exactly max(1, ceil(maxKb / bufKb)) reads and stops
      on the cap, because the cap is tested after each read. */
  lemma ReadsWithCap(cfg: Config, results: seq<ReadResult>, pos: nat)
    requires ValidConfig(cfg) && !cfg.fullDownload
    requires forall j :: pos <= j < pos + ReadsUntilCap(cfg) ==> ResultAt(results, j).Full?
    ensures Reads(cfg, results, pos, 0) == ReadsUntilCap(cfg)
    ensures FinalStop(cfg, results, pos, 0) == CapHit
  {
    ReadsWithCapFrom(cfg, results, pos, 0);
  }

  /** The number of reads from `pos` on that fill the buffer. */
  function LeadingFull(results: seq<ReadResult>, pos: nat): nat
    decreases |results| - pos
  {
    if ResultAt(results, pos).Full? then 1 + LeadingFull(results, pos + 1) else 0
  }

  /** In full-download mode the cap is never consulted: the loop reads every
      full chunk and then the one read that ends the stream or fails. */
  lemma {:induction false} FullDownloadIgnoresCap(cfg: Config, results: seq<ReadResult>, pos: nat, times: int)
    requires cfg.fullDownload
    ensures Reads(cfg, results, pos, times) == LeadingFull(results, pos) + 1
    ensures FinalStop(cfg, results, pos, times) != CapHit
    decreases |results| - pos
  {
    if ResultAt(results, pos).Full? {
      FullDownloadIgnoresCap(cfg, results, pos + 1, times + 1);
    }
  }

  /** The bytes that `n` reads from read `pos` on actually deliver. */
  function BytesRead(results: seq<ReadResult>, pos: nat, n: nat, chunk: nat): nat
  {
    if n == 0 then 0
    else BytesRead(results, pos, n - 1, chunk) + BytesOf(ResultAt(results, pos + n - 1), chunk)
  }

  lemma {:induction false} BytesOfFullReads(results: seq<ReadResult>, pos: nat, n: nat, chunk: nat)
    requires forall j :: pos <= j < pos + n ==> ResultAt(results, j).Full?
    ensures BytesRead(results, pos, n, chunk) == n * chunk
  {
    if n > 0 {
      BytesOfFullReads(results, pos, n - 1, chunk);
      assert ResultAt(results, pos + n - 1).Full?;
    }
  }

  /** The reported total, one chunk per read, over-counts what the body
      delivered by the missing part of the last chunk only: not at all when
      the cap ended the loop, by less than a chunk after a short read and by
      a whole chunk after io.EOF. */
  lemma ReportedTotalOvercount(cfg: Config, results: seq<ReadResult>, pos: nat, times: int)
    requires ValidConfig(cfg) && WellFormed(results, ChunkBytes(cfg))
    requires !FinalStop(cfg, results, pos, times).ReadError?
    ensures var n := Reads(cfg, results, pos, times);
      var over := n * ChunkBytes(cfg) - BytesRead(results, pos, n, ChunkBytes(cfg));
      0 <= over <= ChunkBytes(cfg) &&
      (over == 0 <==> FinalStop(cfg, results, pos, times) == CapHit) &&
      (over == ChunkBytes(cfg) <==> LastRead(cfg, results, pos, times) == Eof)
  {
    var n := Reads(cfg, results, pos, times);
    var chunk := ChunkBytes(cfg);
    ReadsStopAtFirst(cfg, results, pos, times);
    BytesOfFullReads(results, pos, n - 1, chunk);
    assert BytesRead(results, pos, n, chunk)
      == (n - 1) * chunk + BytesOf(LastRead(cfg, results, pos, times), chunk);
    assert n * chunk == (n - 1) * chunk + chunk;
    var j := pos + n - 1;
    if j < |results| && results[j].Partial? {
      assert 0 < results[j].got < chunk;
    }
  }

  /** 25 KB chunks and a 200 KB cap: eight reads. */
  lemma DefaultsReadEightChunks(results: seq<ReadResult>)
    requires |results| >= 8 && forall j :: 0 <= j < 8 ==> results[j].Full?
    ensures Reads(Defaults, results, 0, 0) == 8
    ensures FinalStop(Defaults, results, 0, 0) == CapHit
  {
    assert ReadsUntilCap(Defaults) == 8;
    ReadsWithCap(Defaults, results, 0);
  }

  /** 50 KB chunks and a 400 KB cap: eight reads, since 8 * 50 >= 400. */
  lemma FiftyOfFourHundredReadsEight(results: seq<ReadResult>)
    requires |results| >= 8 && forall j :: 0 <= j < 8 ==> results[j].Full?
    ensures Reads(Config(50, 400, false), results, 0, 0) == 8
    ensures FinalStop(Config(50, 400, false), results, 0, 0) == CapHit
  {
    assert ReadsUntilCap(Config(50, 400, false)) == 8;
    ReadsWithCap(Config(50, 400, false), results, 0);
  }

  /** A 237 KB body read whole in 50 KB chunks: four full reads and a short
      one of 37 KB, five reads counted, 250 KB reported for 237 KB received. */
  lemma WholeBodyOfOddSize(maxKb: int)
    ensures var cfg := Config(50, maxKb, true);
      var body := [Full, Full, Full, Full, Partial(37 * 1024)];
      Reads(cfg, body, 0, 0) == 5 &&
      FinalStop(cfg, body, 0, 0) == EndOfStream &&
      5 * cfg.bufKb == 250 &&
      BytesRead(body, 0, 5, ChunkBytes(cfg)) == 237 * 1024
  {
    var cfg := Config(50, maxKb, true);
    var body := [Full, Full, Full, Full, Partial(37 * 1024)];
    assert LeadingFull(body, 4) == 0;
    assert LeadingFull(body, 2) == 2;
    assert LeadingFull(body, 0) == 4;
    FullDownloadIgnoresCap(cfg, body, 0, 0);
    BytesOfFullReads(body, 0, 4, ChunkBytes(cfg));
    assert ResultAt(body, 4) == Partial(37 * 1024);
  }
}
