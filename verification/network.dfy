/** The measurement primitives of functions/stats/utils/speedtest/network.ts:
    `measurePing`'s millisecond conversion, and `measureDownload` /
    `measureUpload` as one sequential meter driven by a trace of the events the
    single-threaded event loop observes (clock readings, response heads, body
    chunks, completions and failures). */
module Network {
  import opened Wrappers
  import opened Text
  import opened Bytes
  import Seqs

  // ---------------------------------------------------------------------------
  // measurePing

  const NanosPerMilli: int := 1000000

  /** `Number((end - start) / BigInt(1000000))`: BigInt division truncates toward
      zero, so a non-negative elapsed time gives the whole milliseconds elapsed. */
  function LatencyMs(startNs: int, endNs: int): (ms: int)
    ensures endNs >= startNs ==> 0 <= ms && ms * NanosPerMilli <= endNs - startNs < (ms + 1) * NanosPerMilli
    ensures endNs < startNs ==> ms <= 0 && (ms - 1) * NanosPerMilli < endNs - startNs <= ms * NanosPerMilli
  {
    var d := endNs - startNs;
    if d >= 0 then d / NanosPerMilli else -((-d) / NanosPerMilli)
  }

  // ---------------------------------------------------------------------------
  // Transfer targets and payloads

  const UploadPath: string := "/upload.php"

  /** The object ladder of `measureDownload`. */
  const DownloadSizes: seq<string> :=
    ["350x350", "500x500", "750x750", "1000x1000", "1500x1500",
     "2000x2000", "2500x2500", "3000x3000", "3500x3500", "4000x4000"]

  /** The payload ladder of `measureUpload`, in KiB. */
  const UploadSizesKB: seq<nat> := [32, 64, 128, 256, 512, 1024, 2048]

  const MaxConcurrent: nat := 4

  /** `${serverUrl.replace('/upload.php', '')}/random${size}.jpg`: the first
      `/upload.php` is cut out of the server URL and the object path appended. */
  function DownloadUrl(serverUrl: string, size: string): (r: string)
    ensures (forall j :: !OccursAt(serverUrl, UploadPath, j)) ==>
      r == serverUrl + "/random" + size + ".jpg"
    ensures forall i :: FirstOccurrence(serverUrl, UploadPath, i) ==>
      r == serverUrl[..i] + serverUrl[i + |UploadPath|..] + "/random" + size + ".jpg"
  {
    ReplaceFirst(serverUrl, UploadPath, "") + "/random" + size + ".jpg"
  }

  /** A value of `Math.random()`. */
  type Unit = r: real | 0.0 <= r < 1.0

  /** `Math.floor(Math.random() * n)`: an index into a ladder of `n` entries. */
  function Pick(r: Unit, n: nat): (i: nat)
    requires n > 0
    ensures i < n
  {
    var x := r * n as real;
    assert 0.0 <= x < n as real;
    x.Floor
  }

  const Pattern: string := "0123456789abcdefghijklmnopqrstuvwxyz"

  /** The byte `Buffer.from(pattern)` holds at index `j`: the pattern is ASCII. */
  function PatternByte(j: nat): (b: byte)
    requires j < |Pattern|
    ensures b as int == Pattern[j] as int
  {
    if j < 10 then (48 + j) as byte else (87 + j) as byte
  }

  /** Byte `k` of a generated payload: chunks of 1 KiB, each restarting the pattern. */
  function PayloadByte(k: nat): byte {
    PatternByte((k % 1024) % |Pattern|)
  }

  /** `generateRandomData`: a `sizeKB` KiB buffer filled 1 KiB chunk by chunk, each
      chunk restarting the 36-character pattern. */
  method GenerateRandomData(sizeKB: nat) returns (data: seq<byte>)
    ensures |data| == sizeKB * 1024
    ensures forall k :: 0 <= k < |data| ==> data[k] == PayloadByte(k)
  {
    var buffer := new byte[sizeKB * 1024];
    var chunkSize := 1024;
    var i := 0;
    while i < buffer.Length
      invariant 0 <= i <= buffer.Length && i % 1024 == 0
      invariant forall k :: 0 <= k < i ==> buffer[k] == PayloadByte(k)
    {
      NextChunk(i, sizeKB);
      var remaining := Seqs.Min(chunkSize, buffer.Length - i);
      var j := 0;
      while j < remaining
        invariant 0 <= j <= remaining
        invariant forall k :: 0 <= k < i + j ==> buffer[k] == PayloadByte(k)
      {
        ChunkOffset(i, j);
        buffer[i + j] := PatternByte(j % |Pattern|);
        j := j + 1;
      }
      i := i + chunkSize;
    }
    data := buffer[..];
  }

  lemma ChunkOffset(i: nat, j: nat)
    requires i % 1024 == 0 && j < 1024
    ensures (i + j) % 1024 == j
  {
    assert i + j == (i / 1024) * 1024 + j;
  }

  lemma NextChunk(i: nat, sizeKB: nat)
    requires i % 1024 == 0 && i < sizeKB * 1024
    ensures i + 1024 <= sizeKB * 1024 && (i + 1024) % 1024 == 0
  {
    var c := i / 1024;
    assert i == c * 1024;
    assert c < sizeKB;
  }

  /** The body length of an upload drawn at ladder index `size`. */
  function PayloadLength(size: nat): nat {
    if size < |UploadSizesKB| then UploadSizesKB[size] * 1024 else 0
  }

  // ---------------------------------------------------------------------------
  // The meter

  datatype Direction = Download | Upload

  function LadderLength(dir: Direction): nat {
    if dir == Download then |DownloadSizes| else |UploadSizesKB|
  }

  /** An in-flight transfer: its ladder index, and for a download the status of
      its response head once that has arrived. */
  datatype Transfer = Transfer(size: nat, status: Option<int>)

  /** What the event loop observes during one measurement. Transfers are named by
      their position in the in-flight list. */
  datatype Event =
    | Poll(now: int)               // the outer-loop check at wall-clock `now` (ms), then the top-up
    | Head(t: nat, status: int)    // the response head of a transfer
    | Data(t: nat, bytes: nat)     // a body chunk of a transfer
    | End(t: nat)                  // the response of a transfer ended
    | Fail(t: nat)                 // a transfer errored or timed out

  /** The meter's state: in-flight transfers, how many were launched, the shared
      byte counter and the `shouldContinue` flag. */
  datatype Meter = Meter(inflight: seq<Transfer>, launched: nat, bytes: nat, counting: bool)

  const Start: Meter := Meter([], 0, 0, true)

  /** How many transfers one top-up launches with `active` in flight. */
  function Slots(active: nat, open: bool): nat {
    if open && active < MaxConcurrent then MaxConcurrent - active else 0
  }

  /** The transfers the top-up launches, the k-th one drawing its size from `rand(k)`. */
  function Launches(dir: Direction, from: nat, k: nat, rand: nat -> Unit): (r: seq<Transfer>)
    ensures |r| == k
    ensures forall i :: 0 <= i < k ==> r[i].status.None? && r[i].size < LadderLength(dir)
  {
    var r := seq(k, j requires 0 <= j < k => Transfer(Pick(rand(from + j), LadderLength(dir)), None));
    assert forall i :: 0 <= i < k ==> r[i] == Transfer(Pick(rand(from + i), LadderLength(dir)), None);
    r
  }

  /** The inner loop `while (active.size < maxConcurrent && Date.now() < testEndTime)`,
      reading the clock once per pass: it fills the pool up to four transfers and
      never past it. */
  method TopUp(dir: Direction, inflight: seq<Transfer>, launched: nat, now: int, end: int, rand: nat -> Unit)
    returns (pool: seq<Transfer>)
    ensures pool == inflight + Launches(dir, launched, Slots(|inflight|, now < end), rand)
    ensures |inflight| <= MaxConcurrent ==> |pool| <= MaxConcurrent
    ensures now < end ==> |pool| >= MaxConcurrent
  {
    pool := inflight;
    var k := 0;
    while |pool| < MaxConcurrent && now < end
      invariant k <= Slots(|inflight|, now < end)
      invariant pool == inflight + Launches(dir, launched, k, rand)
      invariant |pool| < MaxConcurrent ==> |pool| == |inflight| + k
      invariant k > 0 ==> |pool| == |inflight| + k && |pool| <= MaxConcurrent
    {
      pool := pool + [Transfer(Pick(rand(launched + k), LadderLength(dir)), None)];
      k := k + 1;
    }
  }

  function Remove(s: seq<Transfer>, t: nat): (r: seq<Transfer>)
    requires t < |s|
    ensures |r| == |s| - 1
    ensures forall x :: x in r ==> x in s
  {
    s[..t] + s[t + 1..]
  }

  /** One event applied to the meter. Only an open poll launches transfers; only a
      download chunk of a status-200 response, or an upload's response end, adds
      bytes, and only while the flag is set; the flag, once cleared, stays cleared. */
  function Step(dir: Direction, end: int, rand: nat -> Unit, m: Meter, e: Event): (r: Meter)
    ensures r.bytes >= m.bytes
    ensures r.bytes != m.bytes ==> m.counting
    ensures r.counting ==> m.counting
    ensures e.Poll? && m.counting && e.now >= end ==> !r.counting
    ensures |m.inflight| <= MaxConcurrent ==> |r.inflight| <= MaxConcurrent
    ensures |r.inflight| > |m.inflight| ==> e.Poll? && m.counting && e.now < end
    ensures e.Data? && r.bytes != m.bytes ==>
      && dir == Download && e.t < |m.inflight| && m.inflight[e.t].status == Some(200)
      && r.bytes == m.bytes + e.bytes
    ensures e.End? && r.bytes != m.bytes ==>
      && dir == Upload && e.t < |m.inflight| && |r.inflight| == |m.inflight| - 1
      && r.bytes == m.bytes + PayloadLength(m.inflight[e.t].size)
    ensures e.Poll? || e.Head? || e.Fail? ==> r.bytes == m.bytes
  {
    match e
    case Poll(now) =>
      if !m.counting then m
      else if now < end then
        var k := Slots(|m.inflight|, true);
        m.(inflight := m.inflight + Launches(dir, m.launched, k, rand), launched := m.launched + k)
      else m.(counting := false)
    case Head(t, status) =>
      if dir == Upload || t >= |m.inflight| || m.inflight[t].status.Some? then m
      else if status != 200 then m.(inflight := Remove(m.inflight, t))
      else m.(inflight := m.inflight[t := Transfer(m.inflight[t].size, Some(200))])
    case Data(t, n) =>
      if dir == Download && t < |m.inflight| && m.inflight[t].status == Some(200) && m.counting
      then m.(bytes := m.bytes + n)
      else m
    case End(t) =>
      if t >= |m.inflight| then m
      else if dir == Download then
        if m.inflight[t].status == Some(200) then m.(inflight := Remove(m.inflight, t)) else m
      else
        assert dir == Upload;
        var added := if m.counting then PayloadLength(m.inflight[t].size) else 0;
        m.(inflight := Remove(m.inflight, t), bytes := m.bytes + added)
    case Fail(t) =>
      if t < |m.inflight| then m.(inflight := Remove(m.inflight, t)) else m
  }

  /** The events applied in order. */
  function Run(dir: Direction, end: int, rand: nat -> Unit, m: Meter, events: seq<Event>): Meter
    decreases |events|
  {
    if events == [] then m else Run(dir, end, rand, Step(dir, end, rand, m, events[0]), events[1..])
  }

  /** The pool invariant: at most four transfers in flight, each drawn from its ladder. */
  predicate PoolOk(dir: Direction, m: Meter) {
    && |m.inflight| <= MaxConcurrent
    && forall i :: 0 <= i < |m.inflight| ==> m.inflight[i].size < LadderLength(dir)
  }

  lemma StepKeepsPool(dir: Direction, end: int, rand: nat -> Unit, m: Meter, e: Event)
    requires PoolOk(dir, m)
    ensures PoolOk(dir, Step(dir, end, rand, m, e))
  {
    var r := Step(dir, end, rand, m, e);
    forall i | 0 <= i < |r.inflight|
      ensures r.inflight[i].size < LadderLength(dir)
    {
      assert r.inflight[i] in r.inflight;
      if r.inflight[i] in m.inflight {
        var j :| 0 <= j < |m.inflight| && m.inflight[j] == r.inflight[i];
      }
    }
  }

  /** However the events interleave, in-flight transfers never exceed four and every
      size comes from the ladder. */
  lemma {:induction false} RunKeepsPool(dir: Direction, end: int, rand: nat -> Unit, m: Meter, events: seq<Event>)
    requires PoolOk(dir, m)
    ensures PoolOk(dir, Run(dir, end, rand, m, events))
    decreases |events|
  {
    if events != [] {
      StepKeepsPool(dir, end, rand, m, events[0]);
      RunKeepsPool(dir, end, rand, Step(dir, end, rand, m, events[0]), events[1..]);
    }
  }

  /** The byte counter never decreases over a trace. */
  lemma {:induction false} RunMonotone(dir: Direction, end: int, rand: nat -> Unit, m: Meter, events: seq<Event>)
    ensures Run(dir, end, rand, m, events).bytes >= m.bytes
    decreases |events|
  {
    if events != [] {
      RunMonotone(dir, end, rand, Step(dir, end, rand, m, events[0]), events[1..]);
    }
  }

  /** Once the flag is cleared the counter is frozen, whatever drains afterwards. */
  lemma {:induction false} RunFrozen(dir: Direction, end: int, rand: nat -> Unit, m: Meter, events: seq<Event>)
    requires !m.counting
    ensures Run(dir, end, rand, m, events).bytes == m.bytes
    ensures !Run(dir, end, rand, m, events).counting
    decreases |events|
  {
    if events != [] {
      RunFrozen(dir, end, rand, Step(dir, end, rand, m, events[0]), events[1..]);
    }
  }

  /** One measurement: the wall clock when the promise starts (`startTime`), when
      `runTest` fixes the deadline, and after the drain; the event trace; and the
      `Math.random()` values drawn for the launched transfers. */
  datatype MeterRun = MeterRun(start: int, launch: int, events: seq<Event>, finish: int, rand: nat -> Unit)

  /** 'No data downloaded' / 'No data uploaded'. */
  datatype MeterError = NoData(dir: Direction)

  /** `speedBps / (1024 * 1024)` with `speedBps = totalBytes * 8 / (elapsedMs / 1000)`. */
  function Mbps(bytes: nat, elapsedMs: int): real
    requires elapsedMs != 0
  {
    (bytes * 8) as real / (elapsedMs as real / 1000.0) / 1048576.0
  }

  /** The counter a run ends with. */
  function TotalBytes(dir: Direction, duration: int, run: MeterRun): nat {
    Run(dir, run.launch + duration * 1000, run.rand, Start, run.events).bytes
  }

  /** `measureDownload` / `measureUpload`: rejects exactly when no byte was counted or
      no time elapsed, and otherwise reports megabits (2^20 bits) per second. */
  function Measure(dir: Direction, duration: int, run: MeterRun): (r: Result<real, MeterError>)
    ensures r.Err? <==> TotalBytes(dir, duration, run) == 0 || run.finish == run.start
    ensures r.Err? ==> r.error == NoData(dir)
    ensures r.Ok? ==> r.value == Mbps(TotalBytes(dir, duration, run), run.finish - run.start)
    ensures r.Ok? ==> (r.value > 0.0 <==> run.finish > run.start)
  {
    var bytes := TotalBytes(dir, duration, run);
    var elapsed := run.finish - run.start;
    if bytes == 0 || elapsed == 0 then Err(NoData(dir))
    else
      assert elapsed > 0 ==> Mbps(bytes, elapsed) > 0.0;
      assert elapsed < 0 ==> Mbps(bytes, elapsed) < 0.0;
      Ok(Mbps(bytes, elapsed))
  }

  /** A trace in which no poll happens before the deadline launches nothing and so
      counts nothing. */
  lemma {:induction false} NoOpenPollNoBytes(dir: Direction, end: int, rand: nat -> Unit, m: Meter, events: seq<Event>)
    requires m.inflight == [] && m.bytes == 0
    requires forall i :: 0 <= i < |events| && events[i].Poll? ==> events[i].now >= end
    ensures Run(dir, end, rand, m, events).bytes == 0
    decreases |events|
  {
    if events != [] {
      var m' := Step(dir, end, rand, m, events[0]);
      assert m'.inflight == [] && m'.bytes == 0;
      assert forall i :: 0 <= i < |events| - 1 ==> events[1..][i] == events[i + 1];
      NoOpenPollNoBytes(dir, end, rand, m', events[1..]);
    }
  }

  /** With a zero-length window and a clock that does not run backwards past the
      deadline's base, the loop body never runs and the measurement rejects
      without dividing. */
  lemma ZeroDurationFails(dir: Direction, run: MeterRun)
    requires forall i :: 0 <= i < |run.events| && run.events[i].Poll? ==> run.events[i].now >= run.launch
    ensures Measure(dir, 0, run) == Err(NoData(dir))
  {
    NoOpenPollNoBytes(dir, run.launch, run.rand, Start, run.events);
  }
}
