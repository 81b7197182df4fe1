/** When the configuration director finds requests it can make no progress with (gps/gpsprot/configprotocol.go): what
    may happen to requests while the client handles errors, and which requests that leaves stuck. */
module StuckRequests {
  import opened ConfigRequests

  /** Request `n` is the first that is not finished. */
  ghost predicate OpensAt(rs: seq<Request>, n: nat) {
    n <= |rs| && AllTerminal(rs, n) && (n < |rs| ==> !Terminal(rs[n].state))
  }

  /** The first request that is not finished can be acted on. */
  ghost predicate NextIsActionable(rs: seq<Request>) {
    forall i :: 0 <= i < |rs| && AllTerminal(rs, i) && !Terminal(rs[i].state) ==> Actionable(rs[i].state)
  }

  /** Everything before the window is finished, and nothing in it is not ready. */
  ghost predicate WindowOk(rs: seq<Request>, start: nat, end: nat)
    requires start <= |rs| && end <= |rs|
  {
    AllTerminal(rs, start) && forall i :: start <= i < end ==> rs[i].state != NotReady
  }

  /** The first request that is not finished is not ready. */
  ghost predicate Stuck(rs: seq<Request>) {
    exists n: nat :: n < |rs| && OpensAt(rs, n) && rs[n].state == NotReady
  }

  /** A request in state `s` is finished, or may be before it is sent again: by packets, or by its deadline alone. */
  predicate CanFinish(s: RequestState, packets: bool) {
    Terminal(s) || s == MaybeComplete || s == Pausing || (packets && s == AwaitingResponse)
  }

  /** Some request that is not ready follows only requests that can finish. */
  predicate Exposed(rs: seq<Request>, packets: bool) {
    exists n | 0 <= n < |rs| :: rs[n].state == NotReady && CanAllFinish(rs, n, packets)
  }

  predicate CanAllFinish(rs: seq<Request>, n: nat, packets: bool)
    requires n <= |rs|
  {
    forall i | 0 <= i < n :: CanFinish(rs[i].state, packets)
  }

  /** From `start` on there is a failed request before any unfinished one, so its error is about to be yielded. */
  predicate FailureAhead(rs: seq<Request>, start: nat) {
    exists f | start <= f < |rs| :: rs[f].state == Failed && AllTerminal(rs, f)
  }

  predicate AtRisk(rs: seq<Request>, start: nat, packets: bool) {
    FailureAhead(rs, start) && Exposed(rs, packets)
  }

  /** What time, and packets if any arrive, may make of the requests. */
  ghost predicate Changes(a: seq<Request>, b: seq<Request>, packets: bool) {
    EvolveAll(a, b) && (!packets ==> ClockAll(a, b))
  }

  /** What may become of the requests while the window is updated from `start`: they change only while the client
      handles the error of a failed request. */
  ghost predicate DuringErrors(a: seq<Request>, start: nat, b: seq<Request>, packets: bool) {
    b == a || (FailureAhead(a, start) && Changes(a, b, packets))
  }

  lemma ChangesTransitive(a: seq<Request>, b: seq<Request>, c: seq<Request>, packets: bool)
    requires Changes(a, b, packets) && Changes(b, c, packets)
    ensures Changes(a, c, packets)
  {
    EvolveAllTransitive(a, b, c);
    if !packets {
      ClockAllTransitive(a, b, c);
    }
  }

  lemma NoChange(a: seq<Request>, packets: bool)
    ensures Changes(a, a, packets)
  {
  }

  /** A request that finished could finish. */
  lemma FinishedCould(a: seq<Request>, b: seq<Request>, packets: bool)
    requires Changes(a, b, packets) && Stuck(b)
    ensures Exposed(a, packets)
  {
    var n: nat :| n < |b| && OpensAt(b, n) && b[n].state == NotReady;
    forall i | 0 <= i < n ensures CanFinish(a[i].state, packets) {
      assert Evolves(a[i], b[i]) && Terminal(b[i].state);
    }
    assert Evolves(a[n], b[n]);
  }

  /** Requests are stuck after errors only if they were so before, or were at risk. */
  lemma StuckOnlyAtRisk(generated: seq<Request>, start: nat, rs: seq<Request>, packets: bool)
    requires DuringErrors(generated, start, rs, packets) && Stuck(rs)
    ensures Stuck(generated) || (AtRisk(generated, start, packets) && rs != generated)
    ensures NextIsActionable(generated) ==> !Stuck(generated)
  {
    if rs != generated {
      FinishedCould(generated, rs, packets);
    }
  }

  /** Letting everything finish that can. */
  function Finished(rs: seq<Request>, packets: bool): (r: seq<Request>)
    ensures |r| == |rs|
    ensures forall i :: 0 <= i < |rs| ==>
      r[i] == (if CanFinish(rs[i].state, packets) && Waiting(rs[i].state) then rs[i].(state := Succeeded) else rs[i])
  {
    seq(|rs|, i requires 0 <= i < |rs| =>
      if CanFinish(rs[i].state, packets) && Waiting(rs[i].state) then rs[i].(state := Succeeded) else rs[i])
  }

  lemma FinishingGetsStuck(rs: seq<Request>, packets: bool)
    requires Exposed(rs, packets)
    ensures Changes(rs, Finished(rs, packets), packets) && Stuck(Finished(rs, packets))
  {
    var n: nat :| n < |rs| && rs[n].state == NotReady && CanAllFinish(rs, n, packets);
    var done := Finished(rs, packets);
    assert OpensAt(done, n) && done[n].state == NotReady;
  }

  /** Some change while errors are handled leaves the requests stuck if and only if, as they were generated, they are
      stuck already or at risk: a failed request is about to be reported, and one that is not ready follows only
      requests that can finish. */
  lemma StuckExactlyWhenAtRisk(generated: seq<Request>, start: nat, packets: bool)
    ensures (exists rs :: DuringErrors(generated, start, rs, packets) && Stuck(rs)) <==>
      Stuck(generated) || AtRisk(generated, start, packets)
    ensures NextIsActionable(generated) ==> !Stuck(generated)
  {
    if rs :| DuringErrors(generated, start, rs, packets) && Stuck(rs) {
      StuckOnlyAtRisk(generated, start, rs, packets);
    }
    if Stuck(generated) {
      assert DuringErrors(generated, start, generated, packets);
    }
    if AtRisk(generated, start, packets) {
      FinishingGetsStuck(generated, packets);
    }
  }

  /** The latest of the deadlines. */
  function LastDeadline(rs: seq<Request>): (t: Time)
    ensures forall r :: r in rs ==> r.deadline <= t
  {
    if rs == [] then 0
    else
      assert rs == rs[..|rs| - 1] + [rs[|rs| - 1]];
      var t := LastDeadline(rs[..|rs| - 1]);
      if rs[|rs| - 1].deadline > t then rs[|rs| - 1].deadline else t
  }

  /** Every waiting request is told that its deadline has passed. */
  function AllPassed(rs: seq<Request>): (r: seq<Request>)
    ensures TimePassed(rs, r, LastDeadline(rs))
    ensures forall i :: 0 <= i < |rs| && CanFinish(rs[i].state, false) ==> Terminal(r[i].state)
  {
    var r := seq(|rs|, i requires 0 <= i < |rs| =>
      if !Waiting(rs[i].state) then rs[i]
      else rs[i].(state := if rs[i].state == AwaitingResponse then MayResend else Succeeded));
    assert forall i :: 0 <= i < |rs| ==> rs[i] in rs;
    r
  }

  /** For a client that lets only time pass, requests are exposed if and only if a single report of the time can leave
      them stuck, or they are stuck already. */
  lemma OneReportGetsStuck(rs: seq<Request>)
    ensures (exists t, after :: TimePassed(rs, after, t) && Stuck(after)) <==> Exposed(rs, false)
  {
    if t, after :| TimePassed(rs, after, t) && Stuck(after) {
      TimePassedChanges(rs, after, t);
      FinishedCould(rs, after, false);
    }
    if Exposed(rs, false) {
      var n: nat :| n < |rs| && rs[n].state == NotReady && CanAllFinish(rs, n, false);
      var after := AllPassed(rs);
      assert TimePassedFor(rs[n], after[n], LastDeadline(rs));
      assert OpensAt(after, n) && after[n].state == NotReady;
    }
  }

  /** With the window up to date, the guard of the panic holds exactly when the requests are stuck. */
  lemma GuardMeansStuck(rs: seq<Request>, start: nat, end: nat)
    requires OpensAt(rs, start) && start <= end <= |rs| && WindowOk(rs, start, end)
    requires end < |rs| ==> !Actionable(rs[end].state)
    ensures (start >= end && start < |rs|) <==> Stuck(rs)
  {
    if Stuck(rs) {
      var n: nat :| n < |rs| && OpensAt(rs, n) && rs[n].state == NotReady;
      assert n == start;
    }
  }

  /** Requests at risk whatever the client receives: request 0 has failed, request 1 pauses, and request 2 waits for
      request 1. If the client lets time pass while it handles the error, the pause ends and request 2 is stuck. */
  lemma ClockGetsStuck() returns (generated: seq<Request>, rs: seq<Request>)
    ensures Generated(generated, false, generated, false) && NextIsActionable(generated)
    ensures AtRisk(generated, 0, false) && TimePassed(generated, rs, 1)
    ensures DuringErrors(generated, 0, rs, false) && Stuck(rs)
  {
    generated := [Request(Failed, 0, 0, 0), Request(Pausing, 0, 1, 0), Request(NotReady, 0, 0, 0)];
    rs := generated[1 := Request(Succeeded, 0, 1, 0)];
    hide EvolveAll, ClockAll, AllTerminal, Generated, TimePassed, NextIsActionable, OpensAt, Exposed, FailureAhead;
    PausingAsGenerated(generated);
    PauseEnds(generated, rs);
    TimePassedChanges(generated, rs, 1);
  }

  lemma PausingAsGenerated(generated: seq<Request>)
    requires generated == [Request(Failed, 0, 0, 0), Request(Pausing, 0, 1, 0), Request(NotReady, 0, 0, 0)]
    ensures Generated(generated, false, generated, false) && NextIsActionable(generated)
    ensures FailureAhead(generated, 0) && Exposed(generated, false)
  {
    assert AllTerminal(generated, 1) && !Terminal(generated[1].state);
    assert generated[2].state == NotReady && CanAllFinish(generated, 2, false);
    assert generated[0].state == Failed && AllTerminal(generated, 0);
  }

  lemma PauseEnds(generated: seq<Request>, rs: seq<Request>)
    requires generated == [Request(Failed, 0, 0, 0), Request(Pausing, 0, 1, 0), Request(NotReady, 0, 0, 0)]
    requires rs == generated[1 := Request(Succeeded, 0, 1, 0)]
    ensures TimePassed(generated, rs, 1) && Stuck(rs)
  {
    assert OpensAt(rs, 2);
  }

  /** If the Configurator need only leave some request actionable, its requests may be stuck as they are. */
  lemma SomeActionableIsNotEnough() returns (generated: seq<Request>)
    ensures exists i :: 0 <= i < |generated| && Actionable(generated[i].state)
    ensures !NextIsActionable(generated) && Stuck(generated)
  {
    generated := [Request(NotReady, 0, 0, 0), Request(ReadyToSend, 0, 0, 0)];
    assert Actionable(generated[1].state);
    assert OpensAt(generated, 0);
  }
}
