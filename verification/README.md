# speedtest: the download loop, modelled in Dafny

The program times an HTTP download. It reads the response body in fixed chunks
of `bufKb` KB through `io.ReadFull`. After each read it counts the read and
recomputes two rates: the average rate since the start and the peak of the
per-chunk rates. It then prints a progress line whose quantities are shown in KB
or MB. It stops when:

- the body ends (`io.EOF` or `io.ErrUnexpectedEOF`);
- a read fails in any other way (`log.Fatal`);
- `times*bufKb` reaches the cap `maxKb`, unless `fullDownload` is set.

The model has four modules:

- `Units` (units.dfy): the unit choice of `kbMb`, as a function.
- `Reader` (reader.dfy): the response body as a `Stream` object. Each read
  returns the next entry of a finite list of results: full chunk, short chunk,
  EOF or error. After the end of the list every read returns EOF.
- `Download` (download.dfy): what the loop does, as functions of the
  configuration and of the body. These cover the number of reads (`Reads`)
  and why the loop stops (`FinalStop`), with lemmas for the counting and
  termination rules.
- `Speedtest` (speedtest.dfy): the `downloader` object as a class. It has the
  fields `times`, `start`, `prev`, `avgSpd` and `maxSpd` and the methods
  `newDownloader`, `speeds`, `speedstr` and `downSpeed`. The loop of
  `DownSpeed` (in `ReadLoop`) is proved against the `Download` functions.
  The peak after a run is the running maximum `PeakAfter` of the run's
  per-chunk rates. `PeakOfRun` shows that it equals `Peak` of the whole
  history of rates, and the `Peak` lemmas say what that peak is.

The clock is not modelled. Each recomputation of the rates reads the clock
twice, for the time since the start and for "now"; the caller supplies both
readings as one `Tick` of reals, in seconds. Rates are exact reals.

A 237 KB body read whole in 50 KB chunks takes four full reads and one 37 KB
short read (`WholeBodyOfOddSize`): five reads, with 250 KB reported for 237 KB
received.

## Model

| member | source | states |
|---|---|---|
| Units.KbMb | main.go:105-110 | MB exactly when b > 1024 (strict); the displayed number times its unit is b; an MB figure is above 1 and a KB figure at most 1024 |
| Units.KbMbOrder | main.go:105-110 | a larger quantity is never shown in a smaller unit; within one unit the displayed order is the order of the quantities |
| Units.KbMbExamples | main.go:102-110 | 2048 is 2 MB, 100 is 100 KB, and 1024 stays 1024 KB |
| Reader.Stream.ReadFull | main.go:63 | a read returns the body's next result (EOF once the body is used up) and advances the position by one |
| Download.Reads | main.go:61-76 | the loop performs at least one read, and at most the reads left in the body plus the final EOF |
| Download.ReadsStopAtFirst | main.go:62-76 | every read before the last filled the buffer without reaching the cap; the last read is an error, end of stream, or reaches the cap; so no read follows an error |
| Download.FinalStopCases | main.go:67-75 | the loop ends normally iff the last read reports io.EOF or io.ErrUnexpectedEOF, fatally iff it reports another error, and through the cap only when the cap is consulted and reached |
| Download.ReadsUntilCap | main.go:73-75 | max(1, ceil(maxKb/bufKb)): the least positive chunk count whose size reaches the cap |
| Download.CapReachedIff | main.go:73 | the cap test after m reads succeeds iff m >= max(1, ceil(maxKb/bufKb)) |
| Download.ReadsWithCap | main.go:62-76 | with the cap consulted and a body that does not end early, exactly max(1, ceil(maxKb/bufKb)) reads, ending on the cap |
| Download.DefaultsReadEightChunks | main.go:12-16 | with 25 KB chunks and a 200 KB cap the loop reads 8 chunks and stops on the cap |
| Download.FiftyOfFourHundredReadsEight | main.go:73-75 | 50 KB chunks and a 400 KB cap give 8 reads, the loop ending on the cap test since 8*50 >= 400 |
| Download.ReadsStep | main.go:62-76 | one pass of the loop: after a read that ends the loop it was the last read; otherwise the reads left drop by exactly one |
| Download.FullDownloadIgnoresCap | main.go:73 | with fullDownload the loop reads every full chunk plus the one ending read, and never stops on the cap |
| Download.BytesOfFullReads | main.go:63 | n full reads deliver n whole chunks |
| Download.ReportedTotalOvercount | main.go:63-65 | the reported times*bufKb over-counts the bytes delivered by at most one chunk: by none iff the cap ended the loop, by a whole chunk iff the last read was io.EOF |
| Download.WholeBodyOfOddSize | main.go:61-78 | a 237 KB body in 50 KB chunks with fullDownload: 5 reads, ending normally, 250 KB reported, 237 KB delivered |
| Speedtest.PeakAppend | main.go:85-87 | adding a rate raises the peak to it exactly when it is strictly higher |
| Speedtest.PeakBoundsAll | main.go:85-87 | the peak is at least 0 and at least every rate recorded |
| Speedtest.PeakAttained | main.go:85-87 | the peak of positive rates is one of them |
| Speedtest.PeakMonotone | main.go:85-87 | recording more rates never lowers the peak |
| Speedtest.RatesOf | main.go:84 | the rate history of k reads has k entries, the j-th being bufKb over the time between the j-th "now" reading and the one before it |
| Speedtest.PeakOfRun | main.go:84-87 | the running peak the loop keeps, started from the peak of a history, is the peak of that history extended by the run's rates |
| Speedtest.PeakAfterBounds | main.go:84-87 | the running peak never falls below where it started and is at least every rate computed in the run |
| Speedtest.PeakAfterAttained | main.go:84-87 | the running peak is where it started or one of the rates computed in the run |
| Speedtest.Downloader.constructor | main.go:51-59 | a buffer of 1024*bufKb bytes, times 0, start and prev both the current time, both rates 0, the peak being that of the empty rate history |
| Speedtest.Downloader.Speeds | main.go:80-89 | avgSpd = times*bufKb/elapsed; maxSpd becomes the larger of its old value and bufKb/(now-prev), so it never falls and is at least the current rate; prev = now; times unchanged |
| Speedtest.Downloader.SpeedStr | main.go:91-100 | with calc, avgSpd, maxSpd and prev are recomputed as in speeds; without it nothing changes; the figures are those of the state after, and the total is times*bufKb |
| Speedtest.Downloader.ReadChunk | main.go:63-66 | one read: the body advances by one, times goes up by exactly one whatever the read reported, the rates are recomputed as in speeds, and the progress line holds the total, average and peak of the new state |
| Speedtest.Downloader.DownSpeed | main.go:61-78 | the loop performs exactly Reads reads, one count each; it is Fatal iff the last read failed, carrying that error; otherwise the summary holds the final figures and the elapsed time; the line printed after each read shows the total so far, the average since the start at that read and the running peak up to that read; maxSpd ends as the running peak of the run, never falls and bounds every rate computed |
| Speedtest.Downloader.ReadLoop | main.go:62-76 | the `for` loop alone: exactly Reads reads, leaving through log.Fatal iff the last read failed, with each progress line, prev, avgSpd and maxSpd as for DownSpeed |
| Speedtest.Downloader.LineAfterRead | main.go:91-100 | the figures after the (k+1)-th read of a run are the run's (k+1)-th progress line |

## Left out

- `main` (main.go:18-39) is not modelled: flag parsing, `http.Get`, the status check and closing the body. This is network and command-line glue. The three settings are the `Config` value; `Defaults` holds the initial ones.
- The text of the progress and summary lines, including `\r`, is not modelled, and neither is the `%.2f` rendering. Lines are `Report` values holding each quantity's scaled number and unit.
- `time.Now` and `time.Since` are not modelled. Their readings are parameters: a `Tick` per read and `endAt` for the summary line.
- Go `float64` arithmetic is not modelled: rounding, and +Inf or NaN when no time has elapsed. Rates are exact reals, and a positive time difference is required for each one (`TicksOk`, and the preconditions of `Speeds`).
- `log.Fatal` does not end a process here. It becomes the `Fatal` outcome, and no summary line follows.
- Bodies are finite lists. A body that never ends is only covered up to the cap.
- The contents of `buf` are not modelled, and neither is the byte count `n`, which the program ignores. Only the bytes a read would deliver are modelled (`BytesOf`), for the over-count lemma.
- Bytes delivered by a read that fails with an error other than EOF are counted as 0.
- Go `int` overflow of `times*bufKb` is not modelled. Integers are unbounded.
- Speedtest.Downloader.Speeds: the Go code does not demand a positive time difference. A zero one gives +Inf in Go, and the model requires it to be positive instead.
