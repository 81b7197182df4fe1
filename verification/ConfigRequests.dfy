/** The contract between the configuration director and a receiver-specific Configurator
    (gps/gpsprot/configprotocol.go): request states, the transitions a Configurator may make, and how far a list
    of requests still is from being finished. */
module ConfigRequests {
  /** A point in time; zero is the zero time, which no deadline has. */
  type Time = nat

  datatype RequestState =
    NotReady | ReadyToSend | AwaitingResponse | MaybeComplete | Pausing | Succeeded | MayResend | Failed | Skipped

  predicate Terminal(s: RequestState) {
    s == Succeeded || s == Failed || s == Skipped
  }

  predicate Waiting(s: RequestState) {
    s == AwaitingResponse || s == MaybeComplete || s == Pausing
  }

  predicate Actionable(s: RequestState) {
    s == ReadyToSend || Waiting(s) || s == MayResend
  }

  /** `speedChange` is the new baud rate, zero for none. `extensions` bounds how often the deadline may still move
      before the request leaves its present state. */
  datatype Request = Request(state: RequestState, speedChange: nat, deadline: Time, extensions: nat)

  /** What may become of a request while packets arrive and deadlines pass: the documented automatic transitions
      and SetDeadlinePassed, any number of them. */
  predicate Evolves(a: Request, b: Request) {
    || a == b
    || (&& Waiting(a.state)
        && b.speedChange == a.speedChange && b.extensions <= a.extensions
        && (Waiting(b.state) ==> b.deadline > 0)
        && match a.state
          case AwaitingResponse =>
            if b.state == AwaitingResponse then b.extensions < a.extensions
            else Waiting(b.state) || b.state in {Succeeded, MayResend, Failed}
          case MaybeComplete =>
            if b.state == MaybeComplete then b.extensions < a.extensions
            else b.state == Succeeded || b.state == Failed
          case _ => b.state == Succeeded)
  }

  predicate EvolveAll(a: seq<Request>, b: seq<Request>) {
    |a| == |b| && forall i :: 0 <= i < |a| ==> Evolves(a[i], b[i])
  }

  /** What packets alone may make of a request: the documented automatic transitions. A further response moves the
      deadline of a request that may be complete. */
  predicate Automatic(a: Request, b: Request) {
    || a == b
    || (&& b.speedChange == a.speedChange && b.extensions <= a.extensions
        && (Waiting(b.state) ==> b.deadline > 0)
        && match a.state
          case AwaitingResponse => b.state in {MaybeComplete, Succeeded, Pausing, Failed}
          case MaybeComplete =>
            b.state in {Succeeded, Failed} || (b.state == MaybeComplete && b.extensions < a.extensions)
          case _ => false)
  }

  predicate AutomaticAll(a: seq<Request>, b: seq<Request>) {
    |a| == |b| && forall i :: 0 <= i < |a| ==> Automatic(a[i], b[i])
  }

  lemma AutomaticEvolves(a: seq<Request>, b: seq<Request>)
    requires AutomaticAll(a, b)
    ensures EvolveAll(a, b)
  {
    forall i | 0 <= i < |a| ensures Evolves(a[i], b[i]) {
      assert Automatic(a[i], b[i]);
    }
  }

  /** What SetDeadlinePassed may make of a request. */
  predicate DeadlinePassed(a: Request, b: Request) {
    && b.speedChange == a.speedChange && b.extensions <= a.extensions
    && match a.state
      case AwaitingResponse =>
        b.state == MayResend || (b.state == AwaitingResponse && b.deadline > a.deadline && b.extensions < a.extensions)
      case MaybeComplete => b.state == Succeeded
      case Pausing => b.state == Succeeded
      case _ => false
  }

  /** The time is `t`: the waiting requests whose deadline that is not before are told, and no others change. */
  predicate TimePassed(a: seq<Request>, b: seq<Request>, t: Time) {
    |b| == |a| && forall i :: 0 <= i < |a| ==> TimePassedFor(a[i], b[i], t)
  }

  predicate TimePassedFor(a: Request, b: Request, t: Time) {
    if Waiting(a.state) && a.deadline <= t then DeadlinePassed(a, b) else b == a
  }

  /** What passing deadlines alone may make of the requests. */
  predicate ClockAll(a: seq<Request>, b: seq<Request>) {
    |b| == |a| && forall i :: 0 <= i < |a| ==> a[i] == b[i] || DeadlinePassed(a[i], b[i])
  }

  lemma ClockAllTransitive(a: seq<Request>, b: seq<Request>, c: seq<Request>)
    requires ClockAll(a, b) && ClockAll(b, c)
    ensures ClockAll(a, c)
  {
  }

  /** The deadlines that pass up to `t` are told once each. */
  lemma TimePassedChanges(a: seq<Request>, b: seq<Request>, t: Time)
    requires TimePassed(a, b, t)
    ensures EvolveAll(a, b) && ClockAll(a, b)
  {
    forall i | 0 <= i < |a| ensures Evolves(a[i], b[i]) && (a[i] == b[i] || DeadlinePassed(a[i], b[i])) {
      assert TimePassedFor(a[i], b[i], t);
    }
  }

  /** What SetSentTime may make of a request. */
  predicate Sent(a: Request, b: Request, maxExtensions: nat) {
    && b.speedChange == a.speedChange && b.extensions <= maxExtensions
    && (Waiting(b.state) ==> b.deadline > 0)
    && if a.state == ReadyToSend then b.state in {AwaitingResponse, Succeeded, MaybeComplete}
       else a.state == MayResend && b.state == AwaitingResponse
  }

  /** A request that was sent, and whatever happened to it since. */
  predicate SentAndEvolved(a: Request, b: Request, maxExtensions: nat) {
    && (a.state == ReadyToSend || a.state == MayResend)
    && b.speedChange == a.speedChange && b.extensions <= maxExtensions
    && (Waiting(b.state) ==> b.deadline > 0)
    && (Waiting(b.state) || b.state in {Succeeded, MayResend, Failed})
  }

  lemma EvolvesTransitive(a: Request, b: Request, c: Request)
    requires Evolves(a, b) && Evolves(b, c)
    ensures Evolves(a, c)
  {
  }

  lemma EvolveAllTransitive(a: seq<Request>, b: seq<Request>, c: seq<Request>)
    requires EvolveAll(a, b) && EvolveAll(b, c)
    ensures EvolveAll(a, c)
  {
    forall i | 0 <= i < |a| ensures Evolves(a[i], c[i]) {
      EvolvesTransitive(a[i], b[i], c[i]);
    }
  }

  predicate WellFormed(r: Request, maxExtensions: nat) {
    r.extensions <= maxExtensions && (Waiting(r.state) ==> r.deadline > 0)
  }

  predicate AllWellFormed(rs: seq<Request>, maxExtensions: nat) {
    forall r :: r in rs ==> WellFormed(r, maxExtensions)
  }

  lemma ReplaceWellFormed(rs: seq<Request>, i: nat, r: Request, maxExtensions: nat)
    requires i < |rs| && AllWellFormed(rs, maxExtensions) && WellFormed(r, maxExtensions)
    ensures AllWellFormed(rs[i := r], maxExtensions)
  {
    assert forall q :: q in rs[i := r] ==> q == r || q in rs;
  }

  /** What GenerateRequests may do: requests that are not ready become ready or are skipped, and new requests are
      added at the end, never after the list is complete. Afterwards the first request that is not finished is
      actionable, and if all are finished the list is complete. */
  predicate Generated(a: seq<Request>, complete: bool, b: seq<Request>, complete': bool) {
    && |a| <= |b| && (complete ==> complete' && |b| == |a|)
    && (forall i :: 0 <= i < |a| ==> GeneratedFrom(a[i], b[i]))
    && (forall i :: |a| <= i < |b| ==> b[i].state in {NotReady, ReadyToSend, Skipped})
    && (AllTerminal(b, |b|) ==> complete')
    && (forall i :: 0 <= i < |b| && AllTerminal(b, i) && !Terminal(b[i].state) ==> Actionable(b[i].state))
  }

  predicate GeneratedFrom(a: Request, b: Request) {
    a == b || (a.state == NotReady && b.state in {ReadyToSend, Skipped} && b.speedChange == a.speedChange)
  }

  predicate AllTerminal(rs: seq<Request>, n: nat)
    requires n <= |rs|
  {
    forall i :: 0 <= i < n ==> Terminal(rs[i].state)
  }

  /** How much can still happen to a request without its being sent again. */
  function Weight(r: Request, maxExtensions: nat): nat {
    match r.state
    case NotReady => 6 + 2 * maxExtensions
    case ReadyToSend => 5 + 2 * maxExtensions
    case AwaitingResponse => 4 + maxExtensions + r.extensions
    case MaybeComplete => 3 + r.extensions
    case Pausing => 2
    case MayResend => 1
    case _ => 0
  }

  function Work(rs: seq<Request>, maxExtensions: nat): nat {
    if rs == [] then 0 else Weight(rs[0], maxExtensions) + Work(rs[1..], maxExtensions)
  }

  lemma EvolvingIsWork(a: Request, b: Request, e: nat)
    requires Evolves(a, b) && WellFormed(a, e)
    ensures WellFormed(b, e) && Weight(b, e) <= Weight(a, e) && (a != b ==> Weight(b, e) < Weight(a, e))
  {
  }

  lemma {:induction false} WorkDrops(a: seq<Request>, b: seq<Request>, e: nat)
    requires |a| == |b| && forall i :: 0 <= i < |a| ==> Weight(b[i], e) <= Weight(a[i], e)
    ensures Work(b, e) <= Work(a, e)
    ensures (exists i :: 0 <= i < |a| && Weight(b[i], e) < Weight(a[i], e)) ==> Work(b, e) < Work(a, e)
  {
    if a != [] {
      WorkDrops(a[1..], b[1..], e);
      if i :| 0 < i < |a| && Weight(b[i], e) < Weight(a[i], e) {
        assert Weight(b[1..][i - 1], e) < Weight(a[1..][i - 1], e);
      }
    }
  }

  lemma EvolvingWork(a: seq<Request>, b: seq<Request>, e: nat)
    requires EvolveAll(a, b) && AllWellFormed(a, e)
    ensures AllWellFormed(b, e) && Work(b, e) <= Work(a, e) && (a != b ==> Work(b, e) < Work(a, e))
  {
    forall i | 0 <= i < |a|
      ensures WellFormed(b[i], e) && Weight(b[i], e) <= Weight(a[i], e)
      ensures a[i] != b[i] ==> Weight(b[i], e) < Weight(a[i], e)
    {
      EvolvingIsWork(a[i], b[i], e);
    }
    WorkDrops(a, b, e);
  }

  /** The retries left to the first `n` requests. */
  function RetriesLeft(retries: seq<nat>, n: nat, maxRetries: int): nat {
    if n == 0 then 0 else RetriesLeft(retries, n - 1, maxRetries) + Left(Retry(retries, n - 1), maxRetries)
  }

  function Retry(retries: seq<nat>, i: nat): nat {
    if i < |retries| then retries[i] else 0
  }

  function Left(retry: nat, maxRetries: int): nat {
    if retry < maxRetries then maxRetries - retry else 0
  }

  lemma {:induction false} RetryUsed(a: seq<nat>, b: seq<nat>, i: nat, n: nat, maxRetries: int)
    requires Retry(b, i) == Retry(a, i) + 1 && forall j: nat :: j != i ==> Retry(b, j) == Retry(a, j)
    ensures RetriesLeft(b, n, maxRetries) ==
      RetriesLeft(a, n, maxRetries) - if i < n && Retry(a, i) < maxRetries then 1 else 0
  {
    if n > 0 {
      RetryUsed(a, b, i, n - 1, maxRetries);
    }
  }
}
