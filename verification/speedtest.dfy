/** The orchestration policy of functions/stats/speedtest.ts: the connectivity
    probe, the choice of a server among the nearest ones, the ping average, the
    per-direction retry ladder and the assembled result. Every network outcome
    comes from an oracle. */
module Speedtest {
  import opened Wrappers
  import opened Text
  import opened Servers
  import Network
  import Seqs

  // ---------------------------------------------------------------------------
  // testServerConnectivity

  const LatencyPath: string := "/latency.txt"

  /** `server.url.replace('/upload.php', '/latency.txt')`. */
  function ProbeUrl(serverUrl: string): (r: string)
    ensures (forall j :: !OccursAt(serverUrl, Network.UploadPath, j)) ==> r == serverUrl
    ensures forall i :: FirstOccurrence(serverUrl, Network.UploadPath, i) ==>
      r == serverUrl[..i] + LatencyPath + serverUrl[i + |Network.UploadPath|..]
  {
    ReplaceFirst(serverUrl, Network.UploadPath, LatencyPath)
  }

  /** How a probe request ends. */
  datatype ProbeEvent =
    | BadUrl                  // the probe URL does not parse
    | BodyEnded(status: int)  // a response arrived and its body finished
    | RequestError
    | ProbeTimeout

  /** A promise once settled. */
  datatype Settled<T> = Resolved(value: T) | Rejected

  /** The probe as written: the URL is parsed inside the promise executor, so a
      parse failure rejects the returned promise, and the surrounding
      `try`/`catch` (which does not await it) never sees it. */
  function ProbeAsWritten(e: ProbeEvent): (r: Settled<bool>)
    ensures r == Rejected <==> e == BadUrl
    ensures r.Resolved? ==> (r.value <==> e.BodyEnded?)
  {
    match e
    case BadUrl => Rejected
    case BodyEnded(_) => Resolved(true)
    case RequestError => Resolved(false)
    case ProbeTimeout => Resolved(false)
  }

  /** The probe as intended: true exactly when a response body finished, whatever
      its status; any failure, including an unparsable URL, is false. */
  function Probe(e: ProbeEvent): (r: bool)
    ensures r <==> e.BodyEnded?
    ensures ProbeAsWritten(e).Resolved? ==> r == ProbeAsWritten(e).value
  {
    e.BodyEnded?
  }

  // ---------------------------------------------------------------------------
  // findBestServer

  const CandidateCount: nat := 5
  const MaxPingMs: int := 500

  /** `measurePing`'s outcome. */
  datatype PingOutcome = Pinged(ms: int) | PingError

  /** What the network does for the i-th candidate: the probe, then (if it is
      reachable) the ping. */
  datatype Candidate = Candidate(probe: ProbeEvent, ping: PingOutcome)

  /** Reachable and answering a ping in under 500 ms; a failed ping is swallowed. */
  predicate Accepted(c: Candidate) {
    Probe(c.probe) && c.ping.Pinged? && c.ping.ms < MaxPingMs
  }

  /** The first accepted candidate in `[i, limit)`. */
  function Scan(cand: nat -> Candidate, i: nat, limit: nat): (r: Option<nat>)
    decreases limit - i
    ensures r.Some? ==> i <= r.value < limit && Accepted(cand(r.value))
    ensures r.Some? ==> forall j :: i <= j < r.value ==> !Accepted(cand(j))
    ensures r.None? ==> forall j :: i <= j < limit ==> !Accepted(cand(j))
  {
    if i >= limit then None
    else if Accepted(cand(i)) then Some(i)
    else Scan(cand, i + 1, limit)
  }

  /** The chosen server, and how many candidates were probed. */
  datatype Selection = Selection(choice: Option<Ranked>, probed: nat)

  /** `findBestServer`: the first of the nearest five that is reachable with a ping
      under 500 ms; failing that, the head of the list; `null` only for an empty list. */
  function FindBestServer(servers: seq<Ranked>, cand: nat -> Candidate): (r: Selection)
    ensures r.probed <= Seqs.Min(|servers|, CandidateCount)
    ensures r.choice.None? <==> |servers| == 0
    ensures forall j :: 0 <= j < r.probed - 1 ==> !Accepted(cand(j))
    ensures (exists j :: 0 <= j < Seqs.Min(|servers|, CandidateCount) && Accepted(cand(j))) ==>
      && 0 < r.probed
      && Accepted(cand(r.probed - 1))
      && r.choice == Some(servers[r.probed - 1])
    ensures (forall j :: 0 <= j < Seqs.Min(|servers|, CandidateCount) ==> !Accepted(cand(j))) ==>
      && r.probed == Seqs.Min(|servers|, CandidateCount)
      && r.choice == (if |servers| > 0 then Some(servers[0]) else None)
  {
    var limit := Seqs.Min(|servers|, CandidateCount);
    match Scan(cand, 0, limit)
    case Some(j) => Selection(Some(servers[j]), j + 1)
    case None => Selection(if |servers| > 0 then Some(servers[0]) else None, limit)
  }

  /** The scan in `[i, limit)` meets a malformed URL before any accepted candidate. */
  predicate MeetsBadUrl(cand: nat -> Candidate, i: nat, limit: nat) {
    exists j :: i <= j < limit && cand(j).probe == BadUrl && forall k :: i <= k < j ==> !Accepted(cand(k))
  }

  /** The scan as written: a rejected probe propagates out of the loop. It rejects
      exactly when a malformed URL comes before any accepted candidate, and
      otherwise finds what the intended scan finds. */
  function ScanAsWritten(cand: nat -> Candidate, i: nat, limit: nat): (r: Settled<Option<nat>>)
    decreases limit - i
    ensures r == Rejected <==> MeetsBadUrl(cand, i, limit)
    ensures r.Resolved? ==> r.value == Scan(cand, i, limit)
  {
    if i >= limit then Resolved(None)
    else match ProbeAsWritten(cand(i).probe)
      case Rejected => assert cand(i).probe == BadUrl; Rejected
      case Resolved(reachable) =>
        if reachable && cand(i).ping.Pinged? && cand(i).ping.ms < MaxPingMs then
          assert Accepted(cand(i));
          Resolved(Some(i))
        else
          var r := ScanAsWritten(cand, i + 1, limit);
          assert !Accepted(cand(i)) && cand(i).probe != BadUrl;
          assert MeetsBadUrl(cand, i + 1, limit) ==> MeetsBadUrl(cand, i, limit);
          assert MeetsBadUrl(cand, i, limit) ==> MeetsBadUrl(cand, i + 1, limit) by {
            if MeetsBadUrl(cand, i, limit) {
              var j :| i <= j < limit && cand(j).probe == BadUrl && forall k :: i <= k < j ==> !Accepted(cand(k));
              assert j != i;
            }
          }
          r
  }

  /** `findBestServer` as written: rejected exactly when its scan meets a malformed
      URL first; whenever it resolves, it chooses what the intended version does. */
  function FindBestServerAsWritten(servers: seq<Ranked>, cand: nat -> Candidate): (r: Settled<Selection>)
    ensures r == Rejected <==> MeetsBadUrl(cand, 0, Seqs.Min(|servers|, CandidateCount))
    ensures r.Resolved? ==> r.value == FindBestServer(servers, cand)
  {
    var limit := Seqs.Min(|servers|, CandidateCount);
    match ScanAsWritten(cand, 0, limit)
    case Rejected => Rejected
    case Resolved(Some(j)) => Resolved(Selection(Some(servers[j]), j + 1))
    case Resolved(None) => Resolved(Selection(if |servers| > 0 then Some(servers[0]) else None, limit))
  }

  /** Where no probed URL is malformed, the code as written agrees with the intended scan. */
  lemma {:induction false} ScanAgrees(cand: nat -> Candidate, i: nat, limit: nat)
    requires forall j :: i <= j < limit ==> cand(j).probe != BadUrl
    ensures ScanAsWritten(cand, i, limit) == Resolved(Scan(cand, i, limit))
    decreases limit - i
  {
    if i < limit {
      if !Accepted(cand(i)) {
        ScanAgrees(cand, i + 1, limit);
      }
    }
  }

  lemma AsWrittenAgrees(servers: seq<Ranked>, cand: nat -> Candidate)
    requires forall j :: 0 <= j < Seqs.Min(|servers|, CandidateCount) ==> cand(j).probe != BadUrl
    ensures FindBestServerAsWritten(servers, cand) == Resolved(FindBestServer(servers, cand))
  {
    ScanAgrees(cand, 0, Seqs.Min(|servers|, CandidateCount));
  }

  /** A nearest server whose URL does not parse aborts the whole selection as
      written, although the intended probe would just skip it. */
  lemma BadUrlAbortsSelection(servers: seq<Ranked>, cand: nat -> Candidate)
    requires |servers| > 0 && cand(0).probe == BadUrl
    ensures FindBestServerAsWritten(servers, cand) == Rejected
    ensures FindBestServer(servers, cand).choice.Some?
  {
  }

  // ---------------------------------------------------------------------------
  // Ping average

  const PingAttempts: nat := 3

  /** The successful samples, in order; failures are dropped, not counted as 0. */
  function Successes(attempts: seq<PingOutcome>): (r: seq<int>)
    ensures |r| <= |attempts|
    ensures |r| == 0 <==> forall i :: 0 <= i < |attempts| ==> attempts[i].PingError?
  {
    if attempts == [] then []
    else (if attempts[0].Pinged? then [attempts[0].ms] else []) + Successes(attempts[1..])
  }

  function Sum(xs: seq<int>): int {
    if xs == [] then 0 else xs[0] + Sum(xs[1..])
  }

  /** `Math.round(sum / count)`: the nearest integer to the mean, halves rounded up. */
  function RoundHalfUp(sum: int, count: nat): (r: int)
    requires count > 0
    ensures 2 * count * r - count <= 2 * sum < 2 * count * r + count
  {
    var q := (2 * sum + count) / (2 * count);
    assert 2 * count * q <= 2 * sum + count < 2 * count * q + 2 * count by {
      var d := 2 * count;
      assert (2 * sum + count) == q * d + (2 * sum + count) % d;
    }
    q
  }

  /** The rounded mean of some samples; no samples is the 'Failed to measure ping' error. */
  function Mean(xs: seq<int>): (r: Result<int, Failure>)
    ensures r.Err? <==> xs == []
    ensures r.Ok? ==> 2 * |xs| * r.value - |xs| <= 2 * Sum(xs) < 2 * |xs| * r.value + |xs|
  {
    if |xs| == 0 then Err(NoPing) else Ok(RoundHalfUp(Sum(xs), |xs|))
  }

  /** The reported ping: fails exactly when every attempt failed, and otherwise is
      the rounded mean of the successful samples. */
  function AveragePing(attempts: seq<PingOutcome>): (r: Result<int, Failure>)
    ensures r.Err? <==> forall i :: 0 <= i < |attempts| ==> attempts[i].PingError?
    ensures r.Err? ==> r.error == NoPing
    ensures r.Ok? ==>
      var xs := Successes(attempts);
      2 * |xs| * r.value - |xs| <= 2 * Sum(xs) < 2 * |xs| * r.value + |xs|
  {
    Mean(Successes(attempts))
  }

  lemma {:induction false} SuccessesAppend(a: seq<PingOutcome>, b: seq<PingOutcome>)
    ensures Successes(a + b) == Successes(a) + Successes(b)
  {
    if a == [] {
      assert a + b == b;
    } else {
      var head := if a[0].Pinged? then [a[0].ms] else [];
      assert (a + b)[0] == a[0];
      assert (a + b)[1..] == a[1..] + b;
      assert Successes(a + b) == head + Successes(a[1..] + b);
      SuccessesAppend(a[1..], b);
      assert Successes(a) == head + Successes(a[1..]);
    }
  }

  /** A failed attempt anywhere leaves the average as if it had not been made. */
  lemma FailureIgnored(a: seq<PingOutcome>, b: seq<PingOutcome>)
    ensures AveragePing(a + [PingError] + b) == AveragePing(a + b)
  {
    SuccessesAppend(a + [PingError], b);
    SuccessesAppend(a, [PingError]);
    SuccessesAppend(a, b);
    assert [PingError][1..] == [];
    assert Successes([PingError]) == [];
    assert Successes(a + [PingError] + b) == Successes(a + b);
  }

  // ---------------------------------------------------------------------------
  // Retry ladder and result

  const FirstDuration: int := 10
  const RetryDuration: int := 5

  /** A direction's reported speed and the durations (seconds) it was measured for. */
  datatype Attempts = Attempts(speed: real, durations: seq<int>)

  /** Measure for 10 s; only if that rejects, once more for 5 s; 0 when both reject. */
  function Retried(first: Result<real, Network.MeterError>, retry: Result<real, Network.MeterError>): (r: Attempts)
    ensures first.Ok? ==> r == Attempts(first.value, [FirstDuration])
    ensures first.Err? ==> r.durations == [FirstDuration, RetryDuration]
    ensures first.Err? && retry.Ok? ==> r.speed == retry.value
    ensures first.Err? && retry.Err? ==> r.speed == 0.0
  {
    if first.Ok? then Attempts(first.value, [FirstDuration])
    else Attempts(if retry.Ok? then retry.value else 0.0, [FirstDuration, RetryDuration])
  }

  /** The index of the first successful measurement, or `None` when all fail. */
  function FirstSuccess(attempts: seq<Result<real, Network.MeterError>>): (r: Option<nat>)
    ensures r.Some? ==> r.value < |attempts| && attempts[r.value].Ok?
    ensures r.Some? ==> forall j :: 0 <= j < r.value ==> attempts[j].Err?
    ensures r.None? <==> forall j :: 0 <= j < |attempts| ==> attempts[j].Err?
  {
    if attempts == [] then None
    else if attempts[0].Ok? then Some(0)
    else match FirstSuccess(attempts[1..])
      case None =>
        assert forall j :: 1 <= j < |attempts| ==> attempts[j] == attempts[1..][j - 1];
        None
      case Some(k) =>
        assert forall j :: 1 <= j < |attempts| ==> attempts[j] == attempts[1..][j - 1];
        Some(k + 1)
  }

  const Ladder: seq<int> := [FirstDuration, RetryDuration]

  /** The retry ladder runs the durations in order until one measurement succeeds:
      the speed is that measurement, and the durations tried are the ladder up to
      it. Only when every rung fails is the speed 0, after both durations. */
  lemma RetriedLadder(first: Result<real, Network.MeterError>, retry: Result<real, Network.MeterError>)
    ensures var r, rungs := Retried(first, retry), [first, retry];
      match FirstSuccess(rungs)
      case Some(k) => r.speed == rungs[k].value && r.durations == Ladder[..k + 1]
      case None => r.speed == 0.0 && r.durations == Ladder
  {
    var rungs := [first, retry];
    assert rungs[1..] == [retry];
    assert [retry][1..] == [];
  }

  /** `${sponsor} - ${name}, ${country}`; an absent attribute prints as `undefined`. */
  function Label(s: Server): string {
    Field(s, "sponsor") + " - " + Field(s, "name") + ", " + Field(s, "country")
  }

  datatype Location = Location(lat: real, lon: real)

  /** Everything the run observes from outside: the geo-IP lookup and the catalogue
      fetch (`None` when they reject), the distance function, the candidates'
      probes and pings, the three ping samples, the meter runs per direction and
      duration, and the clock for the timestamp. */
  datatype Oracle = Oracle(
    location: Option<Location>,
    catalog: Option<string>,
    distance: (Location, Server) -> Dist,
    candidate: nat -> Candidate,
    pings: nat -> PingOutcome,
    runs: (Network.Direction, int) -> Network.MeterRun,
    timestamp: int)

  /** Why a run fails. `SelectionRejected` is the rejection of a probe whose URL
      does not parse, which escapes `findBestServer` and aborts the run. */
  datatype Failure = LocationFailed | CatalogFailed | SelectionRejected | NoResponsiveServer | NoPing

  datatype Leg = Leg(speed: real, serverLocation: string)

  datatype SpeedtestResult = SpeedtestResult(ping: int, download: Leg, upload: Leg, timestamp: int)

  /** The three ping samples taken against the chosen server. */
  function Samples(o: Oracle): (r: seq<PingOutcome>)
    ensures |r| == PingAttempts
  {
    seq(PingAttempts, i requires 0 <= i < PingAttempts => o.pings(i))
  }

  function Direction(o: Oracle, dir: Network.Direction): Attempts {
    Retried(Network.Measure(dir, FirstDuration, o.runs(dir, FirstDuration)),
            Network.Measure(dir, RetryDuration, o.runs(dir, RetryDuration)))
  }

  /** The nearest servers of the catalogue, as ranked for the run. */
  function Nearest(o: Oracle): (r: seq<Ranked>)
    requires o.location.Some? && o.catalog.Some?
    ensures |r| == 0 <==> ParseServerXml(o.catalog.value) == []
    ensures forall x :: x in r ==> x.server in ParseServerXml(o.catalog.value)
  {
    SortServersByDistance(ParseServerXml(o.catalog.value), s => o.distance(o.location.value, s))
  }

  /** The server of a selection. */
  function ServerOf(selection: Selection): Option<Server> {
    if selection.choice.None? then None else Some(selection.choice.value.server)
  }

  /** The server the intended `findBestServer` settles on, if any. */
  function ChosenIntended(o: Oracle): (r: Option<Server>)
    requires o.location.Some? && o.catalog.Some?
    ensures r.None? <==> ParseServerXml(o.catalog.value) == []
    ensures r.Some? ==> r.value in ParseServerXml(o.catalog.value)
  {
    var selection := FindBestServer(Nearest(o), o.candidate);
    assert selection.choice.Some? ==> selection.choice.value in Nearest(o);
    ServerOf(selection)
  }

  /** The scan over the nearest servers meets a malformed URL before an accepted one. */
  predicate SelectionAborts(o: Oracle)
    requires o.location.Some? && o.catalog.Some?
  {
    MeetsBadUrl(o.candidate, 0, Seqs.Min(|Nearest(o)|, CandidateCount))
  }

  /** The server `findBestServer` as written settles on: the selection is rejected
      exactly when the scan meets a malformed URL first, and otherwise is the
      intended one. */
  function Chosen(o: Oracle): (r: Settled<Option<Server>>)
    requires o.location.Some? && o.catalog.Some?
    ensures r == Rejected <==> SelectionAborts(o)
    ensures r.Resolved? ==> r.value == ChosenIntended(o)
  {
    match FindBestServerAsWritten(Nearest(o), o.candidate)
    case Rejected => Rejected
    case Resolved(selection) => Resolved(ServerOf(selection))
  }

  /** Everything after the choice of `best`: the three pings, then both directions. */
  function Measured(o: Oracle, best: Server): (r: Result<SpeedtestResult, Failure>)
    ensures r.Err? ==> r.error == NoPing
    ensures r.Ok? ==>
      && r.value.download == Leg(Direction(o, Network.Download).speed, Label(best))
      && r.value.upload == Leg(Direction(o, Network.Upload).speed, Label(best))
      && AveragePing(Samples(o)) == Ok(r.value.ping)
      && r.value.timestamp == o.timestamp
  {
    var serverInfo := Label(best);
    match AveragePing(Samples(o))
    case Err(e) => Err(e)
    case Ok(ping) =>
      Ok(SpeedtestResult(ping, Leg(Direction(o, Network.Download).speed, serverInfo),
                         Leg(Direction(o, Network.Upload).speed, serverInfo), o.timestamp))
  }

  /** `runSpeedtest` as written: a failed lookup, fetch, selection or ping aborts
      the run, and so does a malformed URL met while choosing the server; the two
      directions never do. Apart from that abort it is the intended run. */
  function RunSpeedtest(o: Oracle): (r: Result<SpeedtestResult, Failure>)
    ensures o.location.None? ==> r == Err(LocationFailed)
    ensures o.location.Some? && o.catalog.None? ==> r == Err(CatalogFailed)
    ensures r == Err(SelectionRejected) <==> o.location.Some? && o.catalog.Some? && SelectionAborts(o)
    ensures r != Err(SelectionRejected) ==> r == RunSpeedtestIntended(o)
  {
    if o.location.None? then Err(LocationFailed)
    else if o.catalog.None? then Err(CatalogFailed)
    else match Chosen(o)
      case Rejected => Err(SelectionRejected)
      case Resolved(None) => Err(NoResponsiveServer)
      case Resolved(Some(best)) => Measured(o, best)
  }

  /** `runSpeedtest` with the intended probe: a failed lookup, fetch, selection or
      ping aborts the run; the two directions never do. */
  function RunSpeedtestIntended(o: Oracle): (r: Result<SpeedtestResult, Failure>)
    ensures r != Err(SelectionRejected)
    ensures o.location.None? ==> r == Err(LocationFailed)
    ensures o.location.Some? && o.catalog.None? ==> r == Err(CatalogFailed)
    ensures r.Ok? ==>
      && o.location.Some? && o.catalog.Some? && ChosenIntended(o).Some?
      && r.value.download == Leg(Direction(o, Network.Download).speed, Label(ChosenIntended(o).value))
      && r.value.upload == Leg(Direction(o, Network.Upload).speed, Label(ChosenIntended(o).value))
      && AveragePing(Samples(o)) == Ok(r.value.ping)
      && r.value.timestamp == o.timestamp
  {
    if o.location.None? then Err(LocationFailed)
    else if o.catalog.None? then Err(CatalogFailed)
    else match ChosenIntended(o)
      case None => Err(NoResponsiveServer)
      case Some(best) => Measured(o, best)
  }

  /** Where no probed URL is malformed, the run as written is the intended run. */
  lemma RunAgrees(o: Oracle)
    requires o.location.Some? && o.catalog.Some?
    requires forall j :: 0 <= j < Seqs.Min(|Nearest(o)|, CandidateCount) ==> o.candidate(j).probe != BadUrl
    ensures RunSpeedtest(o) == RunSpeedtestIntended(o)
  {
    assert !SelectionAborts(o);
  }

  /** A malformed URL on the nearest server aborts the whole run as written, while
      the intended run goes on to a result as soon as one ping succeeds. */
  lemma BadUrlAbortsRun(o: Oracle)
    requires o.location.Some? && o.catalog.Some? && ParseServerXml(o.catalog.value) != []
    requires o.candidate(0).probe == BadUrl
    ensures RunSpeedtest(o) == Err(SelectionRejected)
    ensures o.pings(0).Pinged? ==> RunSpeedtestIntended(o).Ok?
  {
    assert |Nearest(o)| > 0;
    assert SelectionAborts(o) by {
      assert 0 < Seqs.Min(|Nearest(o)|, CandidateCount);
    }
    if o.pings(0).Pinged? {
      assert Samples(o)[0] == o.pings(0);
      SamplesAllFail(o);
    }
  }

  /** The run finds no server exactly when the catalogue holds no valid record. */
  lemma NoServerIffEmptyCatalog(o: Oracle)
    requires o.location.Some? && o.catalog.Some?
    ensures RunSpeedtest(o) == Err(NoResponsiveServer) <==> ParseServerXml(o.catalog.value) == []
  {
  }

  /** The ping error needs all three samples to fail. Once a server is chosen,
      which as written needs the selection not to abort, all three failing is
      enough; the intended run needs only a valid record. */
  lemma NoPingOnlyIfAllFail(o: Oracle)
    ensures RunSpeedtest(o) == Err(NoPing) ==> forall i :: 0 <= i < PingAttempts ==> o.pings(i).PingError?
    ensures o.location.Some? && o.catalog.Some? && ParseServerXml(o.catalog.value) != [] && !SelectionAborts(o) ==>
      (RunSpeedtest(o) == Err(NoPing) <==> forall i :: 0 <= i < PingAttempts ==> o.pings(i).PingError?)
    ensures o.location.Some? && o.catalog.Some? && ParseServerXml(o.catalog.value) != [] ==>
      (RunSpeedtestIntended(o) == Err(NoPing) <==> forall i :: 0 <= i < PingAttempts ==> o.pings(i).PingError?)
  {
    RunFailsOnPing(o);
    SamplesAllFail(o);
  }

  lemma SamplesAllFail(o: Oracle)
    ensures AveragePing(Samples(o)).Err? <==> forall i :: 0 <= i < PingAttempts ==> o.pings(i).PingError?
  {
    var xs := Samples(o);
    assert forall i :: 0 <= i < PingAttempts ==> xs[i] == o.pings(i);
  }

  /** Where `runSpeedtest` reports the ping error. */
  lemma RunFailsOnPing(o: Oracle)
    ensures RunSpeedtestIntended(o) == Err(NoPing) <==>
      o.location.Some? && o.catalog.Some? && ChosenIntended(o).Some? && AveragePing(Samples(o)).Err?
    ensures RunSpeedtest(o) == Err(NoPing) <==>
      o.location.Some? && o.catalog.Some? && !SelectionAborts(o) && ChosenIntended(o).Some? && AveragePing(Samples(o)).Err?
  {
    if o.location.Some? && o.catalog.Some? && ChosenIntended(o).Some? {
      assert AveragePing(Samples(o)).Err? ==> AveragePing(Samples(o)).error == NoPing;
    }
  }

  /** Both directions carry the same `sponsor - name, country` label, taken from a
      record of the catalogue. */
  lemma SameLabelBothWays(o: Oracle)
    requires RunSpeedtest(o).Ok?
    ensures RunSpeedtest(o).value.download.serverLocation == RunSpeedtest(o).value.upload.serverLocation
    ensures exists s :: s in ParseServerXml(o.catalog.value) && RunSpeedtest(o).value.upload.serverLocation == Label(s)
  {
    assert ChosenIntended(o).value in ParseServerXml(o.catalog.value);
  }

  /** The upload leg does not depend on how the download went: two worlds that
      differ only in their download runs report the same upload. */
  lemma UploadIndependentOfDownload(o1: Oracle, o2: Oracle)
    requires o2 == o1.(runs := o2.runs)
    requires forall d :: o2.runs(Network.Upload, d) == o1.runs(Network.Upload, d)
    ensures RunSpeedtest(o1).Ok? <==> RunSpeedtest(o2).Ok?
    ensures RunSpeedtest(o1).Ok? ==> RunSpeedtest(o1).value.upload == RunSpeedtest(o2).value.upload
  {
  }
}
