/** The actions of the configuration director (gps/gpsprot/configprotocol.go) and what a log of them says: which errors
    were reported, how often each request was sent, and whether each action was the right one at the time. */
module ConfigRecords {
  import opened ConfigRequests
  import opened StuckRequests

  datatype ConfigError = RequestFailed(index: nat) | GenerationFailed

  datatype Action =
    | SendRequest(index: nat, speed: nat)
    | WaitUntil(deadline: Time)
    | ReportError(err: ConfigError)

  /** How a run of Actions ends. The last two are the panics of the source. */
  datatype Ending = Finished | GenerationError | Stopped | ApiMisuse | StuckNotReady

  /** What a client can see of the director when it is given an action. `visited` holds the requests from `start` on as
      the director last saw them, as far as it has gone through its window. */
  datatype View = View(reqs: seq<Request>, start: nat, end: nat, visited: seq<Request>, generationFailed: bool)

  function Errors(log: seq<Action>): seq<ConfigError> {
    if log == [] then []
    else Errors(log[..|log| - 1]) + match log[|log| - 1] case ReportError(e) => [e] case _ => []
  }

  function Sends(log: seq<Action>, i: nat): nat {
    if log == [] then 0
    else
      Sends(log[..|log| - 1], i) +
        match log[|log| - 1] case SendRequest(j, _) => (if i == j then 1 else 0) case _ => 0
  }

  /** The requests sent with a change of speed. */
  function SpeedsSent(log: seq<Action>): set<nat> {
    if log == [] then {} else SpeedsSent(log[..|log| - 1]) + SpeedSent(log[|log| - 1])
  }

  function SpeedSent(a: Action): set<nat> {
    match a case SendRequest(i, speed) => if speed != 0 then {i} else {} case _ => {}
  }

  /** One error for each failed request among the first `n`, in order. */
  function FailedErrors(rs: seq<Request>, n: nat): seq<ConfigError>
    requires n <= |rs|
  {
    if n == 0 then []
    else FailedErrors(rs, n - 1) + if rs[n - 1].state == Failed then [RequestFailed(n - 1)] else []
  }

  /** The action is what the state called for: a request of the window is sent at its own speed, a wait is for the
      earliest deadline of the window, and an error is of the failed request the window starts at. A request may move
      on between being seen and the wait. */
  ghost predicate ActionRight(a: Action, v: View) {
    match a
    case SendRequest(i, speed) =>
      v.start <= i < v.end && i < |v.reqs| && v.reqs[i].state in {ReadyToSend, MayResend}
        && speed == v.reqs[i].speedChange
    case WaitUntil(deadline) =>
      && v.start <= v.end <= |v.reqs| && |v.visited| == v.end - v.start
      && deadline != 0 && EarliestOf(v.visited, deadline)
      && forall k :: 0 <= k < |v.visited| && v.visited[k].state !in {ReadyToSend, MayResend} ==>
           Evolves(v.visited[k], v.reqs[v.start + k])
    case ReportError(RequestFailed(i)) => i == v.start < |v.reqs| && v.reqs[i].state == Failed
    case ReportError(GenerationFailed) => v.generationFailed
  }

  /** The earliest deadline of the waiting requests, zero if there are none. */
  ghost predicate EarliestOf(rs: seq<Request>, earliest: Time) {
    && (forall i :: 0 <= i < |rs| && Waiting(rs[i].state) ==> 0 < earliest <= rs[i].deadline)
    && (earliest != 0 ==> exists i :: 0 <= i < |rs| && Waiting(rs[i].state) && rs[i].deadline == earliest)
  }

  lemma LogGrows(log: seq<Action>, a: Action)
    ensures Errors(log + [a]) == Errors(log) + match a case ReportError(e) => [e] case _ => []
    ensures SpeedsSent(log + [a]) == SpeedsSent(log) + SpeedSent(a)
    ensures forall i: nat ::
      Sends(log + [a], i) == Sends(log, i) + match a case SendRequest(j, _) => (if i == j then 1 else 0) case _ => 0
  {
    assert (log + [a])[..|log|] == log;
  }

  lemma {:induction false} FailedErrorsSame(a: seq<Request>, b: seq<Request>, n: nat)
    requires n <= |a| && n <= |b| && a[..n] == b[..n]
    ensures FailedErrors(a, n) == FailedErrors(b, n)
  {
    if n > 0 {
      assert a[..n - 1] == a[..n][..n - 1] == b[..n - 1];
      assert a[n - 1] == a[..n][n - 1] == b[n - 1];
      FailedErrorsSame(a, b, n - 1);
    }
  }

  /** The send that is due when the director comes to request `i`, if any: a request that is ready is sent at its speed;
      one that may be resent is, unless it changes the speed or its tries are used up. */
  function SendDue(r: Request, i: nat, retry: nat, maxRetries: int): seq<Action> {
    if r.state == ReadyToSend then [SendRequest(i, r.speedChange)]
    else if r.state == MayResend && r.speedChange == 0 && retry + 1 < maxRetries then [SendRequest(i, 0)]
    else []
  }

  /** The request is given up when the director comes to it. */
  predicate GivenUpThen(r: Request, i: nat, retry: nat, maxRetries: int) {
    r.state == MayResend && SendDue(r, i, retry, maxRetries) == []
  }

  /** The sends due when the director goes through the requests seen, from `start` on. */
  function SendsDue(visited: seq<Request>, start: nat, retries: seq<nat>, maxRetries: int): seq<Action> {
    if visited == [] then []
    else
      var n := |visited| - 1;
      SendsDue(visited[..n], start, retries, maxRetries)
        + SendDue(visited[n], start + n, Retry(retries, start + n), maxRetries)
  }

  /** A pass that began on `before` has come past the requests seen, and the requests are now as in `now`. */
  ghost predicate Passed(before: seq<Request>, now: seq<Request>, visited: seq<Request>, start: nat) {
    && |now| == |before| && start + |visited| <= |now|
    && (forall k :: 0 <= k < |visited| ==> Evolves(before[start + k], visited[k]))
    && (forall k :: 0 <= k < |visited| && visited[k].state !in {ReadyToSend, MayResend} ==>
          Evolves(visited[k], now[start + k]))
    && (forall j :: start + |visited| <= j < |now| ==> Evolves(before[j], now[j]))
  }

  lemma NothingChanges(rs: seq<Request>, i: nat)
    requires i < |rs|
    ensures OthersEvolve(rs, rs, i)
  {
  }

  /** All requests but `i` evolved, and so did that one unless it could be sent. */
  ghost predicate OthersEvolve(a: seq<Request>, b: seq<Request>, i: nat) {
    && |b| == |a| && i < |a| && (forall j :: 0 <= j < |a| && j != i ==> Evolves(a[j], b[j]))
    && (a[i].state !in {ReadyToSend, MayResend} ==> Evolves(a[i], b[i]))
  }

  lemma PassedOne(before: seq<Request>, now: seq<Request>, next: seq<Request>, visited: seq<Request>, start: nat)
    requires Passed(before, now, visited, start) && OthersEvolve(now, next, start + |visited|)
    ensures Passed(before, next, visited + [now[start + |visited|]], start) && |next| == |before|
  {
    hide Evolves;
    var n := start + |visited|;
    forall k | 0 <= k < |visited| && visited[k].state !in {ReadyToSend, MayResend}
      ensures Evolves(visited[k], next[start + k])
    {
      EvolvesTransitive(visited[k], now[start + k], next[start + k]);
    }
    forall j | n < j < |next| ensures Evolves(before[j], next[j]) {
      EvolvesTransitive(before[j], now[j], next[j]);
    }
  }

  /** The requests given up when the director goes through the requests seen, from `start` on. */
  ghost function GivenUpIn(visited: seq<Request>, start: nat, retries: seq<nat>, maxRetries: int): set<nat> {
    set k | 0 <= k < |visited| && GivenUpThen(visited[k], start + k, Retry(retries, start + k), maxRetries) :: start + k
  }

  lemma EarliestOfOne(visited: seq<Request>, r: Request, earliest: Time)
    requires EarliestOf(visited, earliest) && (Waiting(r.state) ==> r.deadline > 0)
    ensures EarliestOf(visited + [r],
      if Waiting(r.state) && (earliest == 0 || r.deadline < earliest) then r.deadline else earliest)
  {
    var all := visited + [r];
    assert all[|visited|] == r;
    if earliest != 0 {
      var i :| 0 <= i < |visited| && Waiting(visited[i].state) && visited[i].deadline == earliest;
      assert all[i] == visited[i];
    }
  }

  lemma PassBegins(rs: seq<Request>, start: nat, retries: seq<nat>, maxRetries: int)
    requires start <= |rs|
    ensures Passed(rs, rs, [], start) && EarliestOf([], 0)
    ensures SendsDue([], start, retries, maxRetries) == [] && GivenUpIn([], start, retries, maxRetries) == {}
  {
  }

  lemma GivenUpInOne(visited: seq<Request>, r: Request, start: nat, retries: seq<nat>, maxRetries: int)
    ensures var i := start + |visited|;
      GivenUpIn(visited + [r], start, retries, maxRetries) ==
        GivenUpIn(visited, start, retries, maxRetries)
          + (if GivenUpThen(r, i, Retry(retries, i), maxRetries) then {i} else {})
  {
    hide GivenUpThen, Retry;
    var all := visited + [r];
    forall k | 0 <= k < |visited| ensures all[k] == visited[k] {
    }
    assert all[|visited|] == r;
  }

  /** What the director does with the next request it comes to. */
  lemma PassGoesOn(now: seq<Request>, visited: seq<Request>, start: nat, retries: seq<nat>, maxRetries: int,
    earliest: Time, e: nat)
    requires EarliestOf(visited, earliest) && start + |visited| < |now| && AllWellFormed(now, e)
    ensures var i := start + |visited|; var r := now[i];
      && SendsDue(visited + [r], start, retries, maxRetries) ==
          SendsDue(visited, start, retries, maxRetries) + SendDue(r, i, Retry(retries, i), maxRetries)
      && GivenUpIn(visited + [r], start, retries, maxRetries) ==
          GivenUpIn(visited, start, retries, maxRetries)
            + (if GivenUpThen(r, i, Retry(retries, i), maxRetries) then {i} else {})
      && EarliestOf(visited + [r],
          if Waiting(r.state) && (earliest == 0 || r.deadline < earliest) then r.deadline else earliest)
  {
    hide GivenUpThen, GivenUpIn, EarliestOf, SendDue, Retry;
    var r := now[start + |visited|];
    assert r in now;
    assert (visited + [r])[..|visited|] == visited;
    EarliestOfOne(visited, r, earliest);
    GivenUpInOne(visited, r, start, retries, maxRetries);
  }

  /** The log of a pass: what is due is sent in order, and then comes a wait for the earliest deadline seen, if any. */
  ghost predicate PassLogged(before: seq<Action>, after: seq<Action>, visited: seq<Request>, start: nat,
    retries: seq<nat>, maxRetries: int)
  {
    exists earliest :: EarliestOf(visited, earliest) &&
      after == before + SendsDue(visited, start, retries, maxRetries) + WaitFor(earliest)
  }

  function WaitFor(earliest: Time): seq<Action> {
    if earliest == 0 then [] else [WaitUntil(earliest)]
  }

  lemma PassIsLogged(before: seq<Action>, after: seq<Action>, visited: seq<Request>, start: nat, retries: seq<nat>,
    maxRetries: int, earliest: Time)
    requires EarliestOf(visited, earliest)
    requires after == before + SendsDue(visited, start, retries, maxRetries) + WaitFor(earliest)
    ensures PassLogged(before, after, visited, start, retries, maxRetries)
  {
  }

  ghost predicate OnlyErrors(before: seq<Action>, after: seq<Action>) {
    before <= after && forall k :: |before| <= k < |after| ==> after[k].ReportError?
  }

  /** The log of a turn: errors, and then the log of a pass. */
  ghost predicate TurnLogged(before: seq<Action>, after: seq<Action>, visited: seq<Request>, start: nat,
    retries: seq<nat>, maxRetries: int)
  {
    exists reported :: OnlyErrors(before, reported) && PassLogged(reported, after, visited, start, retries, maxRetries)
  }

  lemma ErrorAdded(before: seq<Action>, log: seq<Action>, e: ConfigError)
    requires OnlyErrors(before, log)
    ensures OnlyErrors(before, log + [ReportError(e)])
  {
  }

  /** Waits that follow one another come with a later report of the time in between. `last` is the number of reports
      at the last wait since `from`, -1 before the first. */
  ghost predicate Punctual(waits: seq<nat>, from: nat, last: int) {
    && from <= |waits| && last == (if |waits| == from then -1 else waits[|waits| - 1])
    && forall j, k :: from <= j < k < |waits| ==> waits[j] < waits[k]
  }

  lemma WaitsPunctual(waits: seq<nat>, from: nat, last: int)
    requires Punctual(waits, from, last)
    ensures |waits| >= from && forall j, k :: from <= j < k < |waits| ==> waits[j] < waits[k]
  {
  }

  lemma LastWaitWas(waits: seq<nat>, from: nat, last: int)
    requires Punctual(waits, from, last) && last >= 0
    ensures |waits| > from && waits[|waits| - 1] == last
  {
  }

  lemma WaitsOn(waits: seq<nat>, from: nat, last: int, now: nat)
    requires Punctual(waits, from, last) && last < now
    ensures Punctual(waits + [now], from, now)
  {
  }

  /** A wait for the earliest deadline seen in the window is right. */
  lemma WaitIsRight(before: seq<Request>, v: View, earliest: Time)
    requires Passed(before, v.reqs, v.visited, v.start) && EarliestOf(v.visited, earliest) && earliest != 0
    requires v.start <= v.end <= |v.reqs| && |v.visited| == v.end - v.start
    ensures ActionRight(WaitUntil(earliest), v)
  {
  }

  /** Request `i` was sent; the others evolved. */
  ghost predicate SentOne(a: seq<Request>, b: seq<Request>, i: nat, e: nat) {
    && |b| == |a| && i < |a| && SentAndEvolved(a[i], b[i], e)
    && forall j :: 0 <= j < |a| && j != i ==> Evolves(a[j], b[j])
  }

  /** Every request whose deadline was not after `deadline` has moved on. */
  ghost predicate Moved(a: seq<Request>, b: seq<Request>, deadline: Time) {
    |b| == |a| && forall i :: 0 <= i < |a| && Waiting(a[i].state) && a[i].deadline <= deadline ==> a[i] != b[i]
  }

  lemma SentMeanwhile(before: seq<Request>, ready: seq<Request>, sent: seq<Request>, after: seq<Request>, i: nat,
    e: nat)
    requires EvolveAll(before, ready) && EvolveAll(sent, after) && AllWellFormed(sent, e)
    requires i < |before| && before[i].state in {ReadyToSend, MayResend}
    requires |sent| == |ready| && sent == ready[i := sent[i]] && Sent(ready[i], sent[i], e)
    ensures SentOne(before, after, i, e)
  {
    assert Evolves(before[i], ready[i]) && Evolves(sent[i], after[i]);
    assert sent[i] in sent;
    forall j | 0 <= j < |before| && j != i ensures Evolves(before[j], after[j]) {
      EvolvesTransitive(before[j], ready[j], after[j]);
    }
  }

  lemma TimePassedMoves(a: seq<Request>, b: seq<Request>, c: seq<Request>, now: Time, deadline: Time)
    requires EvolveAll(a, b) && TimePassed(b, c, now) && deadline <= now
    ensures EvolveAll(a, c) && Moved(a, c, deadline)
  {
    TimePassedChanges(b, c, now);
    EvolveAllTransitive(a, b, c);
    forall i | 0 <= i < |a| && Waiting(a[i].state) && a[i].deadline <= deadline ensures a[i] != c[i] {
      assert Evolves(a[i], b[i]) && TimePassedFor(b[i], c[i], now) && Evolves(b[i], c[i]);
    }
  }

  /** Requests that changed while errors were handled do not change back. */
  lemma ErrorsDoNotUndo(a: seq<Request>, start: nat, b: seq<Request>, c: seq<Request>, packets: bool, e: nat)
    requires DuringErrors(a, start, b, packets) && Changes(b, c, packets) && AllWellFormed(a, e)
    ensures c == a ==> b == a
  {
    ErrorsAreWork(a, start, b, packets, e);
    EvolvingWork(b, c, e);
  }

  lemma ErrorsAreWork(a: seq<Request>, start: nat, b: seq<Request>, packets: bool, e: nat)
    requires DuringErrors(a, start, b, packets) && AllWellFormed(a, e)
    ensures AllWellFormed(b, e) && |b| == |a| && Work(b, e) <= Work(a, e) && (a != b ==> Work(b, e) < Work(a, e))
  {
    NoChange(a, packets);
    EvolvingWork(a, b, e);
  }

  /** A settled window with nothing to wait for, and so with nothing in it, ends where it starts. */
  lemma EmptyWhenNothingToDo(rs: seq<Request>, start: nat, end: nat)
    requires OpensAt(rs, start) && start <= end <= |rs| && WindowOk(rs, start, end)
    ensures Settled(rs[start..end], 0) ==> start == end
  {
    assert start < end ==> rs[start..end][0] == rs[start];
  }

  /** Requests stuck after errors were at risk, and were not left alone. */
  lemma StuckAtRiskHere(generated: seq<Request>, generatedStart: nat, rs: seq<Request>, start: nat, packets: bool,
    careful: bool)
    requires NextIsActionable(generated) && DuringErrors(generated, generatedStart, rs, packets) && Stuck(rs)
    requires OpensAt(rs, start) && start < |rs| && (careful && Exposed(generated, packets) ==> rs == generated)
    ensures rs[start].state == NotReady && !careful && AtRisk(generated, generatedStart, packets)
  {
    StuckOnlyAtRisk(generated, generatedStart, rs, packets);
  }

  lemma OpensAtEnd(rs: seq<Request>, start: nat)
    requires OpensAt(rs, start)
    ensures start == |rs| ==> AllTerminal(rs, |rs|)
  {
  }

  lemma FailureIsAhead(rs: seq<Request>, start: nat, f: nat, end: nat)
    requires start <= f < |rs| && end <= |rs| && WindowOk(rs, f, end) && rs[f].state == Failed
    ensures FailureAhead(rs, start)
  {
  }

  lemma MoreDuringErrors(a: seq<Request>, start: nat, b: seq<Request>, c: seq<Request>, packets: bool)
    requires DuringErrors(a, start, b, packets) && FailureAhead(b, start) && Changes(b, c, packets)
    ensures DuringErrors(a, start, c, packets)
  {
    NoChange(a, packets);
    ChangesTransitive(a, b, c, packets);
  }

  /** How often a request is sent before it is given up: a change of speed once, any other as often as the limit
      says, but at least once. */
  function Tries(r: Request, maxRetries: int): nat {
    if r.speedChange != 0 || maxRetries <= 1 then 1 else maxRetries
  }

  /** The log sends each request as often as its state calls for, and sends nothing else. */
  ghost predicate SendsBounded(log: seq<Action>, rs: seq<Request>, givenUp: set<nat>, maxRetries: int) {
    && (forall i :: 0 <= i < |rs| ==> WithinBound(rs[i], Sends(log, i), i in givenUp, maxRetries))
    && (forall i: nat :: i >= |rs| ==> Sends(log, i) == 0 && i !in givenUp)
  }

  lemma AccountsBound(log: seq<Action>, rs: seq<Request>, retries: seq<nat>, givenUp: set<nat>, maxRetries: int)
    requires SendsAccounted(log, rs, retries, givenUp, maxRetries)
    ensures SendsBounded(log, rs, givenUp, maxRetries)
  {
    forall i | 0 <= i < |rs| ensures WithinBound(rs[i], Sends(log, i), i in givenUp, maxRetries) {
      assert SendAccount(rs[i], Sends(log, i), Retry(retries, i), i in givenUp, maxRetries);
    }
  }

  /** The requests are waiting, the earliest of them until `earliest`, or finished, or not ready. */
  ghost predicate Settled(rs: seq<Request>, earliest: Time) {
    (forall i :: 0 <= i < |rs| ==> rs[i].state !in {ReadyToSend, MayResend}) && EarliestOf(rs, earliest)
  }

  /** Once the earliest deadline has passed, something has moved. */
  lemma SettledMoves(rs: seq<Request>, next: seq<Request>, start: nat, end: nat, earliest: Time)
    requires start <= end <= |rs| && EarliestOf(rs[start..end], earliest) && earliest != 0
    requires Moved(rs, next, earliest)
    ensures rs != next
  {
    var i :| 0 <= i < end - start && Waiting(rs[start..end][i].state) && rs[start..end][i].deadline == earliest;
    assert rs[start..end][i] == rs[start + i];
  }

  predicate Less(a: (nat, nat, nat), b: (nat, nat, nat)) {
    a.0 < b.0 || (a.0 == b.0 && (a.1 < b.1 || (a.1 == b.1 && a.2 < b.2)))
  }

  /** Sending request `i` now is a first send, or a retry that has been counted. */
  ghost predicate MaySend(r: Request, i: nat, retries0: seq<nat>, retries: seq<nat>, maxRetries: int) {
    && (forall j: nat :: j != i ==> Retry(retries, j) == Retry(retries0, j))
    && if r.state == MayResend then
         r.speedChange == 0 && Retry(retries, i) == Retry(retries0, i) + 1 < maxRetries
       else Retry(retries, i) == Retry(retries0, i)
  }

  lemma EvolvedWindow(a: seq<Request>, b: seq<Request>, start: nat, end: nat)
    requires EvolveAll(a, b) && start <= |a| && end <= |a| && WindowOk(a, start, end)
    ensures |b| == |a| && WindowOk(b, start, end) && AllTerminal(a, start) && AllTerminal(b, start)
  {
    assert forall i :: 0 <= i < |a| ==> Evolves(a[i], b[i]);
  }

  lemma NowOpen(rs: seq<Request>, start: nat, end: nat)
    requires start <= |rs| && end <= |rs| && WindowOk(rs, start, end)
    requires start < |rs| ==> !Terminal(rs[start].state)
    ensures OpensAt(rs, start)
  {
  }

  /** The client stopped on the error of request `n`. */
  ghost predicate StoppedAtFailure(log: seq<Action>, rs: seq<Request>, n: nat, errorCount: nat, retries: seq<nat>,
    givenUp: set<nat>, maxRetries: int)
  {
    && n < |rs| && rs[n].state == Failed
    && Errors(log) == FailedErrors(rs, n + 1) && errorCount == |Errors(log)|
    && SendsAccounted(log, rs, retries, givenUp, maxRetries)
  }

  /** How often request `r` was sent, given how often it was retried and whether it was given up. */
  ghost predicate SendAccount(r: Request, sends: nat, retry: nat, givenUp: bool, maxRetries: int) {
    && WithinBound(r, sends, givenUp, maxRetries)
    && (!Terminal(r.state) && sends > 0 ==> sends == retry + 1)
    && (sends == 0 ==> retry == 0)
  }

  /** A request was sent unless it is not ready, ready or skipped, and no more often than it may be tried. It is given
      up only after all its tries, and has then failed. */
  ghost predicate WithinBound(r: Request, sends: nat, givenUp: bool, maxRetries: int) {
    && (sends == 0 <==> r.state in {NotReady, ReadyToSend, Skipped}) && sends <= Tries(r, maxRetries)
    && (givenUp ==> r.state == Failed && sends == Tries(r, maxRetries))
  }

  ghost predicate SendsAccounted(log: seq<Action>, rs: seq<Request>, retries: seq<nat>, givenUp: set<nat>,
    maxRetries: int)
  {
    && (forall i :: 0 <= i < |rs| ==> SendAccount(rs[i], Sends(log, i), Retry(retries, i), i in givenUp, maxRetries))
    && (forall i: nat :: i >= |rs| ==> Sends(log, i) == 0 && Retry(retries, i) == 0 && i !in givenUp)
  }

  /** Requests that merely evolve stay accounted for, and finished ones do not change. */
  lemma EvolvedAccounts(log: seq<Action>, a: seq<Request>, b: seq<Request>, n: nat, retries: seq<nat>,
    givenUp: set<nat>, maxRetries: int)
    requires EvolveAll(a, b) && n <= |a| && AllTerminal(a, n)
    requires SendsAccounted(log, a, retries, givenUp, maxRetries)
    ensures SendsAccounted(log, b, retries, givenUp, maxRetries)
    ensures FailedErrors(a, n) == FailedErrors(b, n) && AllTerminal(b, n) && a[..n] == b[..n]
  {
    assert forall i :: 0 <= i < n ==> Evolves(a[i], b[i]);
    assert a[..n] == b[..n];
    FailedErrorsSame(a, b, n);
    hide Sends, Retry, Evolves, SendAccount, FailedErrors;
    forall i | 0 <= i < |b| ensures SendAccount(b[i], Sends(log, i), Retry(retries, i), i in givenUp, maxRetries) {
      assert SendAccount(a[i], Sends(log, i), Retry(retries, i), i in givenUp, maxRetries);
      EvolvedAccount(a[i], b[i], Sends(log, i), Retry(retries, i), i in givenUp, maxRetries);
    }
  }

  lemma FailureReported(log: seq<Action>, rs: seq<Request>, n: nat, errorCount: nat, retries: seq<nat>,
    givenUp: set<nat>, maxRetries: int)
    requires n < |rs| && rs[n].state == Failed
    requires errorCount == |Errors(log)| && Errors(log) == FailedErrors(rs, n)
    requires SendsAccounted(log, rs, retries, givenUp, maxRetries)
    ensures
      StoppedAtFailure(log + [ReportError(RequestFailed(n))], rs, n, errorCount + 1, retries, givenUp, maxRetries)
  {
    var log' := log + [ReportError(RequestFailed(n))];
    LogGrows(log, ReportError(RequestFailed(n)));
    forall i | 0 <= i < |rs| ensures SendAccount(rs[i], Sends(log', i), Retry(retries, i), i in givenUp, maxRetries) {
      assert SendAccount(rs[i], Sends(log, i), Retry(retries, i), i in givenUp, maxRetries);
    }
  }

  lemma StillStopped(log: seq<Action>, a: seq<Request>, b: seq<Request>, n: nat, end: nat, errorCount: nat,
    retries: seq<nat>, givenUp: set<nat>, maxRetries: int)
    requires EvolveAll(a, b) && n < |a| && end <= |a| && WindowOk(a, n, end)
    requires StoppedAtFailure(log, a, n, errorCount, retries, givenUp, maxRetries)
    ensures StoppedAtFailure(log, b, n, errorCount, retries, givenUp, maxRetries) && WindowOk(b, n + 1, end)
  {
    EvolvedWindow(a, b, n, end);
    assert Evolves(a[n], b[n]);
    EvolvedAccounts(log, a, b, n + 1, retries, givenUp, maxRetries);
  }

  /** One more send of a request that may be sent stays accounted for, whatever happens to the request then. */
  lemma SentAccount(a: Request, b: Request, sends: nat, retry0: nat, retry: nat, givenUp: bool, maxRetries: int, e: nat)
    requires SentAndEvolved(a, b, e) && SendAccount(a, sends, retry0, givenUp, maxRetries)
    requires if a.state == MayResend then a.speedChange == 0 && retry == retry0 + 1 < maxRetries else retry == retry0
    ensures SendAccount(b, sends + 1, retry, givenUp, maxRetries)
  {
  }

  lemma EvolvedAccount(a: Request, b: Request, sends: nat, retry: nat, givenUp: bool, maxRetries: int)
    requires Evolves(a, b) && SendAccount(a, sends, retry, givenUp, maxRetries)
    ensures SendAccount(b, sends, retry, givenUp, maxRetries)
  {
  }

  lemma SendAccounted(log: seq<Action>, a: seq<Request>, b: seq<Request>, i: nat, speed: nat, retries0: seq<nat>,
    retries: seq<nat>, givenUp: set<nat>, maxRetries: int, e: nat)
    requires SentOne(a, b, i, e)
    requires SendsAccounted(log, a, retries0, givenUp, maxRetries) && MaySend(a[i], i, retries0, retries, maxRetries)
    ensures SendsAccounted(log + [SendRequest(i, speed)], b, retries, givenUp, maxRetries)
  {
    hide Sends, Retry, Evolves, SentAndEvolved, SendAccount;
    var log' := log + [SendRequest(i, speed)];
    LogGrows(log, SendRequest(i, speed));
    forall j | 0 <= j < |b| ensures SendAccount(b[j], Sends(log', j), Retry(retries, j), j in givenUp, maxRetries) {
      assert SendAccount(a[j], Sends(log, j), Retry(retries0, j), j in givenUp, maxRetries);
      if j == i {
        SentAccount(a[i], b[i], Sends(log, i), Retry(retries0, i), Retry(retries, i), i in givenUp, maxRetries, e);
      } else {
        EvolvedAccount(a[j], b[j], Sends(log, j), Retry(retries, j), j in givenUp, maxRetries);
      }
    }
  }

  lemma SentWindow(a: seq<Request>, b: seq<Request>, i: nat, start: nat, end: nat, e: nat)
    requires SentOne(a, b, i, e) && start <= i < end <= |a| && WindowOk(a, start, end) && AllWellFormed(a, e)
    ensures WindowOk(b, start, end) && FailedErrors(b, start) == FailedErrors(a, start)
    ensures a[i].state == ReadyToSend ==> Work(b, e) < Work(a, e)
  {
    SentIsWork(a, b, i, e);
    hide AllWellFormed, Work, FailedErrors;
    forall j | 0 <= j < |a| && j != i ensures Evolves(a[j], b[j]) {
    }
    assert a[..start] == b[..start];
    FailedErrorsSame(a, b, start);
  }

  lemma SentIsWork(a: seq<Request>, b: seq<Request>, i: nat, e: nat)
    requires SentOne(a, b, i, e) && AllWellFormed(a, e)
    ensures a[i].state == ReadyToSend ==> Work(b, e) < Work(a, e)
  {
    hide Work;
    forall j | 0 <= j < |a| && j != i ensures Weight(b[j], e) <= Weight(a[j], e) {
      assert a[j] in a;
      EvolvingIsWork(a[j], b[j], e);
    }
    assert a[i] in a;
    if a[i].state == ReadyToSend {
      WorkDrops(a, b, e);
    }
  }

  /** A request that is given up stays accounted for: it has used up its tries. */
  lemma AbandonAccounted(log: seq<Action>, a: seq<Request>, i: nat, start: nat, retries0: seq<nat>, retries: seq<nat>,
    givenUp: set<nat>, maxRetries: int)
    requires start <= i < |a| && SendsAccounted(log, a, retries0, givenUp, maxRetries)
    requires GivenUpThen(a[i], i, Retry(retries0, i), maxRetries)
    requires forall j: nat :: j != i ==> Retry(retries, j) == Retry(retries0, j)
    ensures var b := a[i := a[i].(state := Failed)];
      && SendsAccounted(log, b, retries, givenUp + {i}, maxRetries)
      && FailedErrors(b, start) == FailedErrors(a, start)
  {
    var b := a[i := a[i].(state := Failed)];
    forall j | 0 <= j < |b|
      ensures SendAccount(b[j], Sends(log, j), Retry(retries, j), j in givenUp + {i}, maxRetries)
    {
      assert SendAccount(a[j], Sends(log, j), Retry(retries0, j), j in givenUp, maxRetries);
    }
    FailedErrorsSame(a, b, start);
  }

  lemma GeneratedAccounts(log: seq<Action>, a: seq<Request>, complete: bool, b: seq<Request>, complete': bool,
    start: nat, end: nat, retries: seq<nat>, givenUp: set<nat>, maxRetries: int)
    requires Generated(a, complete, b, complete') && start <= |a| && end <= |a| && WindowOk(a, start, end)
    requires SendsAccounted(log, a, retries, givenUp, maxRetries)
    ensures SendsAccounted(log, b, retries, givenUp, maxRetries) && WindowOk(b, start, end)
    ensures FailedErrors(a, start) == FailedErrors(b, start)
  {
    assert forall i :: 0 <= i < |a| ==> GeneratedFrom(a[i], b[i]);
    assert a[..start] == b[..start];
    FailedErrorsSame(a, b, start);
    forall i | 0 <= i < |b| ensures SendAccount(b[i], Sends(log, i), Retry(retries, i), i in givenUp, maxRetries) {
      assert i < |a| ==> SendAccount(a[i], Sends(log, i), Retry(retries, i), i in givenUp, maxRetries);
    }
  }

  lemma SameSends(log: seq<Action>, log': seq<Action>, rs: seq<Request>, retries: seq<nat>, givenUp: set<nat>,
    maxRetries: int)
    requires SendsAccounted(log, rs, retries, givenUp, maxRetries) && forall i: nat :: Sends(log', i) == Sends(log, i)
    ensures SendsAccounted(log', rs, retries, givenUp, maxRetries)
  {
    forall i | 0 <= i < |rs| ensures SendAccount(rs[i], Sends(log', i), Retry(retries, i), i in givenUp, maxRetries) {
      assert SendAccount(rs[i], Sends(log, i), Retry(retries, i), i in givenUp, maxRetries);
    }
  }
}
