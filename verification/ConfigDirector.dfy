/** The configuration director of gps/gpsprot/configprotocol.go, the Configurator it drives and the client that
    carries out its actions. The Configurator and the client may do anything their contracts allow. */
module ConfigDirector {
  import opened Options
  import opened ConfigRecords
  import opened ConfigRequests
  import opened StuckRequests

  class Configurator {
    var reqs: seq<Request>
    var complete: bool
    const maxRequests: nat
    const maxExtensions: nat

    /** How often requests were generated, and whether that failed the last time. */
    ghost var generations: nat
    ghost var generationFailed: bool
    /** The requests that were given up. */
    ghost var givenUp: set<nat>
    /** The requests told of a valid packet, in order, with the time of the packet. */
    ghost var confirmations: seq<(nat, Time)>

    predicate Valid()
      reads this`reqs
    {
      |reqs| <= maxRequests && AllWellFormed(reqs, maxExtensions)
    }

    constructor (maxRequests: nat, maxExtensions: nat)
      ensures Valid() && reqs == [] && !complete
      ensures this.maxRequests == maxRequests && this.maxExtensions == maxExtensions
      ensures generations == 0 && !generationFailed && givenUp == {} && confirmations == []
    {
      this.maxRequests, this.maxExtensions := maxRequests, maxExtensions;
      reqs, complete := [], false;
      generations, generationFailed, givenUp, confirmations := 0, false, {}, [];
    }

    method GenerateRequests() returns (ok: bool)
      requires Valid()
      modifies this`reqs, this`complete, this`generations, this`generationFailed
      ensures Valid() && generations == old(generations) + 1 && generationFailed == !ok
      ensures if ok then Generated(old(reqs), old(complete), reqs, complete)
              else reqs == old(reqs) && complete == old(complete)
    {
      ok := *;
      generations, generationFailed := generations + 1, !ok;
      if ok {
        GenerationPossible(reqs, complete, maxExtensions);
        var rs, c :| |rs| <= maxRequests && AllWellFormed(rs, maxExtensions) && Generated(reqs, complete, rs, c);
        reqs, complete := rs, c;
      }
    }

    function GetDeadline(i: nat): (t: Time)
      requires Valid() && i < |reqs| && Waiting(reqs[i].state)
      reads this
      ensures t > 0
    {
      assert reqs[i] in reqs;
      reqs[i].deadline
    }

    function GetSpeedChangeAfter(i: nat): nat
      requires i < |reqs| && reqs[i].state in {ReadyToSend, MayResend, Failed}
      reads this
    {
      reqs[i].speedChange
    }

    function GetError(i: nat): ConfigError
      requires i < |reqs| && reqs[i].state == Failed
      reads this
    {
      RequestFailed(i)
    }

    method SetSentTime(i: nat)
      requires Valid() && i < |reqs| && reqs[i].state in {ReadyToSend, MayResend}
      modifies this`reqs
      ensures Valid() && |reqs| == |old(reqs)| && reqs == old(reqs)[i := reqs[i]]
      ensures Sent(old(reqs[i]), reqs[i], maxExtensions)
    {
      assert Sent(reqs[i], Request(AwaitingResponse, reqs[i].speedChange, 1, 0), maxExtensions);
      var r :| Sent(reqs[i], r, maxExtensions);
      assert Sent(reqs[i], r, maxExtensions);
      ReplaceWellFormed(reqs, i, r, maxExtensions);
      reqs := reqs[i := r];
    }

    method SetDeadlinePassed(i: nat)
      requires Valid() && i < |reqs| && Waiting(reqs[i].state)
      modifies this`reqs
      ensures Valid() && |reqs| == |old(reqs)| && reqs == old(reqs)[i := reqs[i]]
      ensures Evolves(old(reqs[i]), reqs[i]) && reqs[i] != old(reqs[i])
      ensures DeadlinePassed(old(reqs[i]), reqs[i])
    {
      assert reqs[i] in reqs;
      var r := reqs[i];
      if r.state == AwaitingResponse {
        var extend: bool := *;
        r := if extend && r.extensions > 0
          then r.(deadline := r.deadline + 1, extensions := r.extensions - 1) else r.(state := MayResend);
      } else {
        r := r.(state := Succeeded);
      }
      reqs := reqs[i := r];
    }

    method SetWontResend(i: nat)
      requires Valid() && i < |reqs| && reqs[i].state == MayResend
      modifies this`reqs, this`givenUp
      ensures Valid() && reqs == old(reqs)[i := old(reqs[i]).(state := Failed)] && givenUp == old(givenUp) + {i}
    {
      assert reqs[i] in reqs;
      givenUp := givenUp + {i};
      reqs := reqs[i := reqs[i].(state := Failed)];
    }

    method MaybeSpeedChangeSucceeded(i: nat, t: Time)
      requires Valid() && i < |reqs| && reqs[i].state == AwaitingResponse
      modifies this`reqs, this`confirmations
      ensures Valid() && |reqs| == |old(reqs)| && reqs == old(reqs)[i := reqs[i]]
      ensures reqs[i] == old(reqs[i]) || reqs[i] == old(reqs[i]).(state := Succeeded)
      ensures confirmations == old(confirmations) + [(i, t)]
    {
      assert reqs[i] in reqs;
      confirmations := confirmations + [(i, t)];
      var confirmed: bool := *;
      if confirmed {
        reqs := reqs[i := reqs[i].(state := Succeeded)];
      }
    }

    /** A packet arrives: any of the automatic transitions, of any of the requests. */
    method ProcessPacket()
      requires Valid()
      modifies this`reqs
      ensures Valid() && AutomaticAll(old(reqs), reqs) && EvolveAll(old(reqs), reqs)
    {
      assert AutomaticAll(reqs, reqs);
      var rs :| AutomaticAll(reqs, rs);
      assert AutomaticAll(reqs, rs);
      AutomaticEvolves(reqs, rs);
      EvolvingWork(reqs, rs, maxExtensions);
      reqs := rs;
    }
  }

  /** Some generation step always meets the contract: making the first unfinished request ready. */
  lemma GenerationPossible(rs: seq<Request>, complete: bool, e: nat)
    requires AllWellFormed(rs, e)
    ensures exists rs', c :: |rs'| <= |rs| && AllWellFormed(rs', e) && Generated(rs, complete, rs', c)
  {
    var rs' := seq(|rs|, i requires 0 <= i < |rs| =>
      if rs[i].state == NotReady then rs[i].(state := ReadyToSend) else rs[i]);
    forall r | r in rs' ensures WellFormed(r, e) {
      var i :| 0 <= i < |rs'| && rs'[i] == r;
      assert rs[i] in rs;
    }
    assert Generated(rs, complete, rs', true);
  }

  class Client {
    var log: seq<Action>
    /** How many more waits the client will cut short before some request changes. After a change it may be any
        number again. */
    var patience: nat
    /** Whether the client calls AdvanceTimeTo after every wait, as it must. */
    const advances: bool
    /** Whether packets may reach the Configurator while the client handles an error. */
    const packets: bool
    /** Whether the client leaves the requests alone while it handles an error and they are exposed. */
    const careful: bool

    /** What the client saw when it was given each action, and how often it had reported the time at each wait. */
    ghost var seen: seq<View>
    ghost var waits: seq<nat>
    /** Whether the client has called it a day. */
    ghost var stopped: bool

    /** Every action was the right one when it was given. */
    ghost predicate AllRight()
      reads this`log, this`seen
    {
      |seen| == |log| && forall k :: 0 <= k < |log| ==> ActionRight(log[k], seen[k])
    }

    constructor (patience: nat, advances: bool, packets: bool, careful: bool)
      ensures log == [] && this.patience == patience && seen == [] && waits == [] && !stopped
      ensures this.advances == advances && this.packets == packets && this.careful == careful
    {
      log, this.patience, this.advances, this.packets, this.careful := [], patience, advances, packets, careful;
      seen, waits, stopped := [], [], false;
    }

    /** The client carries out one action, and may call it a day. While no request changes it cuts short only finitely
        many waits: otherwise, by the end of a wait, it has reported a time no earlier than the deadline.
        It must be given the right action, and never one after it stopped; by then the director must have noted which
        requests change the speed. */
    method Yield(cd: Director, a: Action) returns (more: bool)
      requires cd.cfg.Valid() && cd.endIndex <= |cd.cfg.reqs|
      requires !stopped && AllRight() && ActionRight(a, cd.Seen())
      requires cd.speedChangeRequests == SpeedsSent(log + [a])
      modifies this, cd`currentTime, cd`advanceCount, cd.cfg`reqs, cd.cfg`confirmations
      ensures cd.cfg.Valid() && log == old(log) + [a]
      ensures AllRight() && seen == old(seen) + [old(cd.Seen())] && stopped == !more
      ensures waits == if a.WaitUntil? then old(waits) + [old(cd.advanceCount)] else old(waits)
      ensures cd.cfg.reqs == old(cd.cfg.reqs) ==> patience <= old(patience)
      ensures cd.advanceCount >= old(cd.advanceCount)
      ensures a.ReportError? ==> Changes(old(cd.cfg.reqs), cd.cfg.reqs, packets)
      ensures a.ReportError? && careful && Exposed(old(cd.cfg.reqs), packets) ==> cd.cfg.reqs == old(cd.cfg.reqs)
      ensures a.SendRequest? ==> SentOne(old(cd.cfg.reqs), cd.cfg.reqs, a.index, cd.cfg.maxExtensions)
      ensures a.WaitUntil? ==> EvolveAll(old(cd.cfg.reqs), cd.cfg.reqs)
      ensures a.WaitUntil? && advances ==> cd.advanceCount > old(cd.advanceCount)
      ensures a.WaitUntil? && cd.cfg.reqs == old(cd.cfg.reqs) ==>
        patience < old(patience) || Moved(old(cd.cfg.reqs), cd.cfg.reqs, a.deadline)
    {
      log, seen := log + [a], seen + [cd.Seen()];
      if a.WaitUntil? {
        waits := waits + [cd.advanceCount];
      }
      var before := cd.cfg.reqs;
      match a {
        case ReportError(_) =>
          HandleError(cd);
        case SendRequest(i, _) =>
          CarryOutSend(cd, i);
        case WaitUntil(deadline) =>
          CarryOutWait(cd, deadline);
      }
      var renewed: int := *;
      if cd.cfg.reqs != before && renewed >= 0 {
        patience := renewed;
      }
      more := *;
      stopped := !more;
    }

    method HandleError(cd: Director)
      requires cd.cfg.Valid() && cd.endIndex <= |cd.cfg.reqs|
      modifies cd`currentTime, cd`advanceCount, cd.cfg`reqs, cd.cfg`confirmations
      ensures cd.cfg.Valid() && Changes(old(cd.cfg.reqs), cd.cfg.reqs, packets)
      ensures cd.advanceCount >= old(cd.advanceCount)
      ensures careful && Exposed(old(cd.cfg.reqs), packets) ==> cd.cfg.reqs == old(cd.cfg.reqs)
    {
      hide Exposed;
      NoChange(cd.cfg.reqs, packets);
      if !(careful && Exposed(cd.cfg.reqs, packets)) {
        if packets {
          Meanwhile(cd);
        } else {
          LetTimePass(cd);
        }
      }
    }

    /** The request is still as it was when the client comes to send it. */
    method CarryOutSend(cd: Director, i: nat)
      requires cd.cfg.Valid() && cd.endIndex <= |cd.cfg.reqs|
      requires i < |cd.cfg.reqs| && cd.cfg.reqs[i].state in {ReadyToSend, MayResend}
      modifies cd`currentTime, cd`advanceCount, cd.cfg`reqs, cd.cfg`confirmations
      ensures cd.cfg.Valid() && SentOne(old(cd.cfg.reqs), cd.cfg.reqs, i, cd.cfg.maxExtensions)
      ensures cd.advanceCount >= old(cd.advanceCount)
    {
      ghost var before := cd.cfg.reqs;
      Meanwhile(cd);
      ghost var ready := cd.cfg.reqs;
      assert Evolves(before[i], ready[i]);
      cd.cfg.SetSentTime(i);
      ghost var sent := cd.cfg.reqs;
      Meanwhile(cd);
      SentMeanwhile(before, ready, sent, cd.cfg.reqs, i, cd.cfg.maxExtensions);
    }

    /** A client may report the time before it waits or after, or both. */
    method CarryOutWait(cd: Director, deadline: Time)
      requires cd.cfg.Valid() && cd.endIndex <= |cd.cfg.reqs|
      modifies this`patience, cd`currentTime, cd`advanceCount, cd.cfg`reqs, cd.cfg`confirmations
      ensures cd.cfg.Valid() && EvolveAll(old(cd.cfg.reqs), cd.cfg.reqs) && patience <= old(patience)
      ensures cd.advanceCount >= old(cd.advanceCount) && (advances ==> cd.advanceCount > old(cd.advanceCount))
      ensures patience < old(patience) || Moved(old(cd.cfg.reqs), cd.cfg.reqs, deadline)
    {
      var first: bool := *;
      ghost var before := cd.cfg.reqs;
      if first {
        ReportTime(cd);
      }
      ghost var reported := cd.cfg.reqs;
      Meanwhile(cd);
      EvolveAllTransitive(before, reported, cd.cfg.reqs);
      ghost var waited := cd.cfg.reqs;
      if patience > 0 {
        patience := patience - 1;
        if advances && !first {
          ReportTime(cd);
          EvolveAllTransitive(before, waited, cd.cfg.reqs);
        }
      } else {
        var now := if cd.currentTime < deadline then deadline else cd.currentTime;
        cd.AdvanceTimeTo(now);
        TimePassedMoves(before, waited, cd.cfg.reqs, now, deadline);
      }
    }

    /** Some time has passed since the last report, or none. */
    method ReportTime(cd: Director)
      requires cd.cfg.Valid()
      modifies cd`currentTime, cd`advanceCount, cd.cfg`reqs
      ensures cd.cfg.Valid() && EvolveAll(old(cd.cfg.reqs), cd.cfg.reqs) && cd.advanceCount > old(cd.advanceCount)
    {
      var now: int := *;
      ghost var before := cd.cfg.reqs;
      cd.AdvanceTimeTo(if now > cd.currentTime then now else cd.currentTime);
      TimePassedChanges(before, cd.cfg.reqs, cd.currentTime);
    }

    /** Time passes, and no packets arrive. */
    method LetTimePass(cd: Director)
      requires cd.cfg.Valid()
      modifies cd`currentTime, cd`advanceCount, cd.cfg`reqs
      ensures cd.cfg.Valid() && Changes(old(cd.cfg.reqs), cd.cfg.reqs, false) && cd.advanceCount >= old(cd.advanceCount)
    {
      NoChange(cd.cfg.reqs, false);
      var steps: nat := *;
      while steps > 0
        invariant cd.cfg.Valid() && Changes(old(cd.cfg.reqs), cd.cfg.reqs, false)
        invariant cd.advanceCount >= old(cd.advanceCount)
      {
        ghost var before := cd.cfg.reqs;
        var t: int := *;
        if t >= cd.currentTime {
          cd.AdvanceTimeTo(t);
          TimePassedChanges(before, cd.cfg.reqs, t);
          ChangesTransitive(old(cd.cfg.reqs), before, cd.cfg.reqs, false);
        }
        steps := steps - 1;
      }
    }

    /** Packets arrive and time passes. */
    method Meanwhile(cd: Director)
      requires cd.cfg.Valid() && cd.endIndex <= |cd.cfg.reqs|
      modifies cd`currentTime, cd`advanceCount, cd.cfg`reqs, cd.cfg`confirmations
      ensures cd.cfg.Valid() && EvolveAll(old(cd.cfg.reqs), cd.cfg.reqs) && cd.advanceCount >= old(cd.advanceCount)
    {
      var steps: nat := *;
      while steps > 0
        invariant cd.cfg.Valid() && EvolveAll(old(cd.cfg.reqs), cd.cfg.reqs) && cd.advanceCount >= old(cd.advanceCount)
      {
        ghost var before := cd.cfg.reqs;
        var what: nat, elapsed: nat := *, *;
        if what == 0 {
          cd.cfg.ProcessPacket();
        } else if what == 1 {
          cd.ValidPacketReceived(elapsed);
        } else {
          cd.AdvanceTimeTo(cd.currentTime + elapsed);
          TimePassedChanges(before, cd.cfg.reqs, cd.currentTime);
        }
        EvolveAllTransitive(old(cd.cfg.reqs), before, cd.cfg.reqs);
        steps := steps - 1;
      }
    }
  }

  class Director {
    const cfg: Configurator
    const maxRetries: int
    var startIndex: nat
    var endIndex: nat
    var retries: seq<nat>
    var speedChangeRequests: set<nat>
    var errorCount: nat
    var currentTime: Time
    var advanceCount: nat

    /** The requests as they were last generated, and startIndex then. */
    ghost var generated: seq<Request>
    ghost var generatedStart: nat
    /** The requests of the window as they were when this pass through it came to them. */
    ghost var visited: seq<Request>

    constructor (cfg: Configurator, maxRetries: int)
      ensures this.cfg == cfg && this.maxRetries == maxRetries
      ensures startIndex == endIndex == errorCount == advanceCount == currentTime == 0
      ensures retries == [] && speedChangeRequests == {}
    {
      this.cfg, this.maxRetries := cfg, maxRetries;
      startIndex, endIndex, retries, speedChangeRequests := 0, 0, [], {};
      errorCount, currentTime, advanceCount := 0, 0, 0;
    }

    method AdvanceTimeTo(t: Time)
      requires cfg.Valid() && t >= currentTime
      modifies this`currentTime, this`advanceCount, cfg`reqs
      ensures cfg.Valid() && TimePassed(old(cfg.reqs), cfg.reqs, t)
      ensures currentTime == t && advanceCount == old(advanceCount) + 1
    {
      currentTime := t;
      advanceCount := advanceCount + 1;
      ProcessTimeouts();
    }

    method ProcessTimeouts()
      requires cfg.Valid()
      modifies cfg`reqs
      ensures cfg.Valid() && TimePassed(old(cfg.reqs), cfg.reqs, currentTime)
    {
      ghost var before := cfg.reqs;
      for i := 0 to |cfg.reqs|
        invariant cfg.Valid() && |cfg.reqs| == |before| && cfg.reqs[i..] == before[i..]
        invariant forall j :: 0 <= j < i ==> TimePassedFor(before[j], cfg.reqs[j], currentTime)
      {
        assert cfg.reqs[i] == cfg.reqs[i..][0] == before[i];
        if cfg.reqs[i].state in {AwaitingResponse, MaybeComplete, Pausing} && currentTime >= cfg.GetDeadline(i) {
          cfg.SetDeadlinePassed(i);
        }
        assert cfg.reqs[i + 1..] == before[i..][1..];
      }
    }

    /** A valid packet came at time `t`: the speed changes of the window that await a response are told, once each. */
    method ValidPacketReceived(t: Time)
      requires cfg.Valid() && endIndex <= |cfg.reqs|
      modifies cfg`reqs, cfg`confirmations
      ensures cfg.Valid() && EvolveAll(old(cfg.reqs), cfg.reqs)
      ensures forall j :: 0 <= j < |cfg.reqs| && cfg.reqs[j] != old(cfg.reqs)[j] ==>
        MayConfirmSpeed(j, old(cfg.reqs)) && cfg.reqs[j] == old(cfg.reqs)[j].(state := Succeeded)
      ensures old(cfg.confirmations) <= cfg.confirmations
      ensures var told := cfg.confirmations[|old(cfg.confirmations)|..];
        && (forall i: nat :: MayConfirmSpeed(i, old(cfg.reqs)) <==> (i, t) in told)
        && (forall c :: c in told ==> c.1 == t) && (forall j, k :: 0 <= j < k < |told| ==> told[j] != told[k])
    {
      var todo := speedChangeRequests;
      ghost var told: seq<(nat, Time)> := [];
      while todo != {}
        invariant cfg.Valid() && |cfg.reqs| == |old(cfg.reqs)| && todo <= speedChangeRequests
        invariant forall j :: 0 <= j < |cfg.reqs| && cfg.reqs[j] != old(cfg.reqs)[j] ==>
          MayConfirmSpeed(j, old(cfg.reqs)) && j !in todo && cfg.reqs[j] == old(cfg.reqs)[j].(state := Succeeded)
        invariant cfg.confirmations == old(cfg.confirmations) + told
        invariant forall i: nat :: MayConfirmSpeed(i, old(cfg.reqs)) && i !in todo <==> (i, t) in told
        invariant forall c :: c in told ==> c.1 == t
        invariant forall j, k :: 0 <= j < k < |told| ==> told[j] != told[k]
        decreases |todo|
      {
        var i :| i in todo;
        if startIndex <= i < endIndex && cfg.reqs[i].state == AwaitingResponse {
          cfg.MaybeSpeedChangeSucceeded(i, t);
          assert (i, t) !in told;
          told := told + [(i, t)];
        }
        todo := todo - {i};
      }
    }

    /** A valid packet may confirm the speed change of request `i`, which is in the window and awaits a response. */
    ghost predicate MayConfirmSpeed(i: nat, rs: seq<Request>)
      reads this`speedChangeRequests, this`startIndex, this`endIndex
    {
      i in speedChangeRequests && startIndex <= i < endIndex && i < |rs| && rs[i].state == AwaitingResponse
    }

    /** Makes room for retry counts of the first `size` requests. */
    method EnsureRetriesSize(size: nat)
      modifies this`retries
      ensures |retries| == if size > |old(retries)| then size else |old(retries)|
      ensures forall i: nat :: Retry(retries, i) == Retry(old(retries), i)
    {
      if |retries| < size {
        retries := retries + seq(size - |retries|, _ => 0);
      }
    }

    ghost function Seen(): View
      reads this, cfg
    {
      View(cfg.reqs, startIndex, endIndex, visited, cfg.generationFailed)
    }

    /** The window lies within the requests, and everything before it is finished. */
    ghost predicate Valid()
      reads this`startIndex, this`endIndex, cfg`reqs
    {
      cfg.Valid() && startIndex <= |cfg.reqs| && endIndex <= |cfg.reqs| && WindowOk(cfg.reqs, startIndex, endIndex)
    }

    /** The actions yielded so far account for the state: one error for each failed request before the window, one
        send for each request that was sent, plus one for each retry, and all its tries for each request given up. */
    ghost predicate Accounts(log: seq<Action>)
      requires Valid()
      reads this`startIndex, this`endIndex, this`errorCount, this`retries, cfg`reqs, cfg`givenUp
    {
      && errorCount == |Errors(log)|
      && Errors(log) == FailedErrors(cfg.reqs, startIndex)
      && SendsAccounted(log, cfg.reqs, retries, cfg.givenUp, maxRetries)
    }

    /** Every action was right, and the director knows which sends changed the speed. */
    ghost predicate Records(client: Client)
      reads this`speedChangeRequests, client`log, client`seen
    {
      client.AllRight() && speedChangeRequests == SpeedsSent(client.log)
    }

    /** Passes the finished requests, yielding an error for each failed one. */
    method AdvanceStart(client: Client) returns (more: bool)
      requires Valid() && Accounts(client.log) && Records(client) && !client.stopped
      modifies this`startIndex, this`errorCount, this`currentTime, this`advanceCount
      modifies cfg`reqs, cfg`confirmations, client
      ensures Valid() && DuringErrors(old(cfg.reqs), old(startIndex), cfg.reqs, client.packets)
      ensures Records(client) && client.stopped == !more && client.waits == old(client.waits)
      ensures OnlyErrors(old(client.log), client.log)
      ensures client.careful && Exposed(old(cfg.reqs), client.packets) ==> cfg.reqs == old(cfg.reqs)
      ensures startIndex >= old(startIndex) && advanceCount >= old(advanceCount)
      ensures cfg.reqs == old(cfg.reqs) ==> client.patience <= old(client.patience)
      ensures if more then Accounts(client.log) && OpensAt(cfg.reqs, startIndex)
              else StoppedAtFailure(client.log, cfg.reqs, startIndex, errorCount, retries, cfg.givenUp, maxRetries)
    {
      hide SendsAccounted, EvolveAll, Errors, FailedErrors, WindowOk, OpensAt, StoppedAtFailure, AllWellFormed, Exposed;
      hide Changes, FailureAhead, Records, SpeedsSent;
      more := true;
      assert OnlyErrors(client.log, client.log);
      hide OnlyErrors;
      NoChange(cfg.reqs, client.packets);
      while startIndex < |cfg.reqs| && cfg.reqs[startIndex].state in {Succeeded, Skipped, Failed}
        invariant Valid() && Accounts(client.log) && Records(client) && !client.stopped
        invariant DuringErrors(old(cfg.reqs), old(startIndex), cfg.reqs, client.packets)
        invariant client.careful && Exposed(old(cfg.reqs), client.packets) ==> cfg.reqs == old(cfg.reqs)
        invariant startIndex >= old(startIndex) && advanceCount >= old(advanceCount)
        invariant cfg.reqs == old(cfg.reqs) ==> client.patience <= old(client.patience)
        invariant |cfg.reqs| == |old(cfg.reqs)| && AllWellFormed(old(cfg.reqs), cfg.maxExtensions)
        invariant client.waits == old(client.waits) && OnlyErrors(old(client.log), client.log)
        decreases |cfg.reqs| - startIndex
      {
        if cfg.reqs[startIndex].state == Failed {
          ghost var before := cfg.reqs;
          FailureIsAhead(before, old(startIndex), startIndex, endIndex);
          ErrorAdded(old(client.log), client.log, RequestFailed(startIndex));
          more := YieldFailure(client);
          ErrorsDoNotUndo(old(cfg.reqs), old(startIndex), before, cfg.reqs, client.packets, cfg.maxExtensions);
          MoreDuringErrors(old(cfg.reqs), old(startIndex), before, cfg.reqs, client.packets);
          if !more {
            return;
          }
        } else {
          PassFinished(client.log);
        }
      }
      NowOpen(cfg.reqs, startIndex, endIndex);
    }

    method PassFinished(ghost log: seq<Action>)
      requires Valid() && Accounts(log) && startIndex < |cfg.reqs|
      requires Terminal(cfg.reqs[startIndex].state) && cfg.reqs[startIndex].state != Failed
      modifies this`startIndex
      ensures Valid() && Accounts(log) && startIndex == old(startIndex) + 1
    {
      hide SendsAccounted, Errors;
      startIndex := startIndex + 1;
    }

    /** Yields the error of the failed request at startIndex, and passes it unless the client stops. */
    method YieldFailure(client: Client) returns (more: bool)
      requires Valid() && Accounts(client.log) && startIndex < |cfg.reqs| && cfg.reqs[startIndex].state == Failed
      requires Records(client) && !client.stopped
      modifies this`startIndex, this`errorCount, this`currentTime, this`advanceCount
      modifies cfg`reqs, cfg`confirmations, client
      ensures Valid() && Changes(old(cfg.reqs), cfg.reqs, client.packets)
      ensures Records(client) && client.stopped == !more && client.waits == old(client.waits)
      ensures client.log == old(client.log) + [ReportError(RequestFailed(old(startIndex)))]
      ensures client.careful && Exposed(old(cfg.reqs), client.packets) ==> cfg.reqs == old(cfg.reqs)
      ensures advanceCount >= old(advanceCount)
      ensures cfg.reqs == old(cfg.reqs) ==> client.patience <= old(client.patience)
      ensures startIndex == old(startIndex) + (if more then 1 else 0) && |cfg.reqs| == |old(cfg.reqs)|
      ensures if more then Accounts(client.log)
              else StoppedAtFailure(client.log, cfg.reqs, startIndex, errorCount, retries, cfg.givenUp, maxRetries)
    {
      hide SendsAccounted, EvolveAll, WindowOk, FailedErrors, Errors, SpeedsSent;
      FailureReported(client.log, cfg.reqs, startIndex, errorCount, retries, cfg.givenUp, maxRetries);
      errorCount := errorCount + 1;
      hide Exposed, ClockAll;
      ghost var before := cfg.reqs;
      LogGrows(client.log, ReportError(RequestFailed(startIndex)));
      more := client.Yield(this, ReportError(cfg.GetError(startIndex)));
      EvolvedWindow(before, cfg.reqs, startIndex, endIndex);
      StillStopped(client.log, before, cfg.reqs, startIndex, endIndex, errorCount, retries, cfg.givenUp, maxRetries);
      if more {
        startIndex := startIndex + 1;
      }
    }

    /** Expands the window up to the first request that is not actionable. */
    method ExpandEnd()
      requires Valid()
      modifies this`endIndex
      ensures Valid() && endIndex >= startIndex && endIndex >= old(endIndex)
      ensures forall i :: startIndex <= i < endIndex && old(endIndex) <= i ==> Actionable(cfg.reqs[i].state)
      ensures endIndex < |cfg.reqs| ==> !Actionable(cfg.reqs[endIndex].state)
    {
      if endIndex < startIndex {
        endIndex := startIndex;
      }
      while endIndex < |cfg.reqs| &&
        cfg.reqs[endIndex].state in {ReadyToSend, AwaitingResponse, MaybeComplete, Pausing, MayResend}
        invariant Valid() && endIndex >= startIndex && endIndex >= old(endIndex)
        invariant forall i :: startIndex <= i < endIndex && old(endIndex) <= i ==> Actionable(cfg.reqs[i].state)
      {
        endIndex := endIndex + 1;
      }
    }

    method UpdateWindow(client: Client) returns (more: bool)
      requires Valid() && Accounts(client.log) && Records(client) && !client.stopped
      modifies this`startIndex, this`endIndex, this`errorCount, this`currentTime, this`advanceCount
      modifies cfg`reqs, cfg`confirmations, client
      ensures Valid() && DuringErrors(old(cfg.reqs), old(startIndex), cfg.reqs, client.packets)
      ensures Records(client) && client.stopped == !more && client.waits == old(client.waits)
      ensures OnlyErrors(old(client.log), client.log)
      ensures client.careful && Exposed(old(cfg.reqs), client.packets) ==> cfg.reqs == old(cfg.reqs)
      ensures startIndex >= old(startIndex) && advanceCount >= old(advanceCount)
      ensures cfg.reqs == old(cfg.reqs) ==> client.patience <= old(client.patience)
      ensures if more then Accounts(client.log) && OpensAt(cfg.reqs, startIndex)
              else StoppedAtFailure(client.log, cfg.reqs, startIndex, errorCount, retries, cfg.givenUp, maxRetries)
      ensures if more then endIndex >= startIndex && endIndex >= old(endIndex) else endIndex == old(endIndex)
      ensures more ==>
        forall i :: startIndex <= i < endIndex && old(endIndex) <= i ==> Actionable(cfg.reqs[i].state)
      ensures more && endIndex < |cfg.reqs| ==> !Actionable(cfg.reqs[endIndex].state)
    {
      more := AdvanceStart(client);
      if more {
        ExpandEnd();
      }
    }

    /** What is left to do before the run must end, besides generating more requests. */
    ghost function Remaining(client: Client): (m: (nat, nat, nat))
      reads this`retries, cfg`reqs, client`patience
    {
      (RetriesLeft(retries, |cfg.reqs|, maxRetries), Work(cfg.reqs, cfg.maxExtensions), client.patience)
    }

    /** Yields the send action for request i. */
    method YieldSend(client: Client, i: nat, ghost retries0: seq<nat>) returns (more: bool)
      requires Valid() && startIndex <= i < endIndex
      requires cfg.reqs[i].state in {ReadyToSend, MayResend}
      requires SendsAccounted(client.log, cfg.reqs, retries0, cfg.givenUp, maxRetries)
      requires MaySend(cfg.reqs[i], i, retries0, retries, maxRetries)
      requires errorCount == |Errors(client.log)| && Errors(client.log) == FailedErrors(cfg.reqs, startIndex)
      requires Records(client) && !client.stopped
      modifies this`speedChangeRequests, this`currentTime, this`advanceCount, cfg`reqs, cfg`confirmations, client
      ensures Valid() && Accounts(client.log) && advanceCount >= old(advanceCount)
      ensures Records(client) && client.stopped == !more && client.waits == old(client.waits)
      ensures client.log == old(client.log) + [SendRequest(i, old(cfg.reqs[i]).speedChange)]
      ensures OthersEvolve(old(cfg.reqs), cfg.reqs, i)
      ensures old(cfg.reqs[i].state) == ReadyToSend ==>
        Work(cfg.reqs, cfg.maxExtensions) < Work(old(cfg.reqs), cfg.maxExtensions)
    {
      hide SendsAccounted, WindowOk, FailedErrors, Errors, Work, AllWellFormed, MaySend, SpeedsSent, Evolves;
      hide SentAndEvolved;
      var speed := cfg.GetSpeedChangeAfter(i);
      if speed != 0 {
        speedChangeRequests := speedChangeRequests + {i};
      }
      ghost var before, log := cfg.reqs, client.log;
      LogGrows(log, SendRequest(i, speed));
      more := client.Yield(this, SendRequest(i, speed));
      SendAccounted(log, before, cfg.reqs, i, speed, retries0, retries, cfg.givenUp, maxRetries, cfg.maxExtensions);
      SentWindow(before, cfg.reqs, i, startIndex, endIndex, cfg.maxExtensions);
    }

    /** Gives up request i, which has used up its tries. */
    method Abandon(client: Client, i: nat, ghost retries0: seq<nat>)
      requires Valid() && startIndex <= i < endIndex
      requires GivenUpThen(cfg.reqs[i], i, Retry(retries0, i), maxRetries)
      requires SendsAccounted(client.log, cfg.reqs, retries0, cfg.givenUp, maxRetries)
      requires forall j: nat :: j != i ==> Retry(retries, j) == Retry(retries0, j)
      requires errorCount == |Errors(client.log)| && Errors(client.log) == FailedErrors(cfg.reqs, startIndex)
      modifies cfg`reqs, cfg`givenUp
      ensures Valid() && Accounts(client.log) && OthersEvolve(old(cfg.reqs), cfg.reqs, i)
      ensures cfg.givenUp == old(cfg.givenUp) + {i}
      ensures Work(cfg.reqs, cfg.maxExtensions) < Work(old(cfg.reqs), cfg.maxExtensions)
    {
      hide SendsAccounted, FailedErrors, Errors;
      ghost var before, givenUp := cfg.reqs, cfg.givenUp;
      cfg.SetWontResend(i);
      AbandonAccounted(client.log, before, i, startIndex, retries0, retries, givenUp, maxRetries);
      WorkDrops(before, cfg.reqs, cfg.maxExtensions);
    }

    /** Deals with request i of the window: notes its deadline, sends it, or gives it up. */
    method Visit(client: Client, i: nat, earliest: Time) returns (more: bool, earliest': Time)
      requires Valid() && Accounts(client.log) && Records(client) && !client.stopped && startIndex <= i < endIndex
      modifies this`retries, this`speedChangeRequests, this`currentTime, this`advanceCount
      modifies cfg`reqs, cfg`confirmations, cfg`givenUp, client
      ensures Valid() && Accounts(client.log) && advanceCount >= old(advanceCount)
      ensures Records(client) && client.stopped == !more && client.waits == old(client.waits)
      ensures client.log == old(client.log) + SendDue(old(cfg.reqs[i]), i, Retry(old(retries), i), maxRetries)
      ensures cfg.givenUp ==
        old(cfg.givenUp) + if GivenUpThen(old(cfg.reqs[i]), i, Retry(old(retries), i), maxRetries) then {i} else {}
      ensures forall j: nat :: j != i ==> Retry(retries, j) == Retry(old(retries), j)
      ensures OthersEvolve(old(cfg.reqs), cfg.reqs, i)
      ensures Less(Remaining(client), old(Remaining(client))) ||
        (cfg.reqs == old(cfg.reqs) && Remaining(client) == old(Remaining(client)) && more &&
          cfg.reqs[i].state !in {ReadyToSend, MayResend})
      ensures earliest' == if Waiting(old(cfg.reqs[i].state)) && (earliest == 0 || old(cfg.reqs[i].deadline) < earliest)
        then old(cfg.reqs[i].deadline) else earliest
    {
      hide SendsAccounted, WindowOk, FailedErrors, Errors, Work, AllWellFormed, RetriesLeft, Records, Evolves;
      more, earliest' := true, earliest;
      ghost var retries0 := retries;
      NothingChanges(cfg.reqs, i);
      var state := cfg.reqs[i].state;
      if state in {AwaitingResponse, MaybeComplete, Pausing} {
        var deadline := cfg.GetDeadline(i);
        if earliest == 0 || deadline < earliest {
          earliest' := deadline;
        }
      } else if state == MayResend {
        if cfg.GetSpeedChangeAfter(i) != 0 {
          Abandon(client, i, retries0);
          return;
        }
        EnsureRetriesSize(i + 1);
        retries := retries[i := retries[i] + 1];
        RetryUsed(retries0, retries, i, |cfg.reqs|, maxRetries);
        if retries[i] >= maxRetries {
          Abandon(client, i, retries0);
        } else {
          more := YieldSend(client, i, retries0);
        }
      } else if state == ReadyToSend {
        more := YieldSend(client, i, retries0);
      }
    }

    /** Goes through the window once, sending what is due in order. Either something moved, or everything in the window
        is finished or waiting. */
    method ProcessWindow(client: Client) returns (more: bool, earliest: Time)
      requires Valid() && Accounts(client.log) && Records(client) && !client.stopped && startIndex <= endIndex
      modifies this`retries, this`speedChangeRequests, this`currentTime, this`advanceCount, this`visited
      modifies cfg`reqs, cfg`confirmations, cfg`givenUp, client
      ensures Valid() && Accounts(client.log) && advanceCount >= old(advanceCount)
      ensures Records(client) && client.stopped == !more && client.waits == old(client.waits)
      ensures |cfg.reqs| == |old(cfg.reqs)| && |visited| <= endIndex - startIndex
      ensures Passed(old(cfg.reqs), cfg.reqs, visited, startIndex)
      ensures more ==> |visited| == endIndex - startIndex && EarliestOf(visited, earliest)
      ensures client.log == old(client.log) + SendsDue(visited, startIndex, old(retries), maxRetries)
      ensures cfg.givenUp == old(cfg.givenUp) + GivenUpIn(visited, startIndex, old(retries), maxRetries)
      ensures startIndex == endIndex ==> cfg.reqs == old(cfg.reqs)
      ensures Less(Remaining(client), old(Remaining(client))) ||
        (cfg.reqs == old(cfg.reqs) && Remaining(client) == old(Remaining(client)) && more &&
          Settled(cfg.reqs[startIndex..endIndex], earliest))
    {
      hide SendsAccounted, WindowOk, FailedErrors, Errors, Work, AllWellFormed, RetriesLeft, Records, Evolves;
      hide SendsDue, SendDue, GivenUpIn, Passed, OthersEvolve, Waiting, EarliestOf, Accounts, Remaining, GivenUpThen;
      hide Retry;
      more, earliest := true, 0;
      var i := startIndex;
      visited := [];
      PassBegins(cfg.reqs, startIndex, retries, maxRetries);
      while i < endIndex
        invariant Valid() && Accounts(client.log) && Records(client) && !client.stopped
        invariant |cfg.reqs| == |old(cfg.reqs)| && i == startIndex + |visited| <= endIndex
        invariant advanceCount >= old(advanceCount) && client.waits == old(client.waits)
        invariant Passed(old(cfg.reqs), cfg.reqs, visited, startIndex) && EarliestOf(visited, earliest)
        invariant client.log == old(client.log) + SendsDue(visited, startIndex, old(retries), maxRetries)
        invariant cfg.givenUp == old(cfg.givenUp) + GivenUpIn(visited, startIndex, old(retries), maxRetries)
        invariant forall j: nat :: j >= i ==> Retry(retries, j) == Retry(old(retries), j)
        invariant i == startIndex ==> cfg.reqs == old(cfg.reqs)
        invariant Less(Remaining(client), old(Remaining(client))) ||
          (&& cfg.reqs == old(cfg.reqs) && Remaining(client) == old(Remaining(client))
            && visited == cfg.reqs[startIndex..i]
            && forall k :: 0 <= k < |visited| ==> visited[k].state !in {ReadyToSend, MayResend})
      {
        ghost var now, seen, log := cfg.reqs, visited, client.log;
        assert now[startIndex..i + 1] == now[startIndex..i] + [now[i]];
        PassGoesOn(now, seen, startIndex, old(retries), maxRetries, earliest, cfg.maxExtensions);
        visited := visited + [now[i]];
        more, earliest := Visit(client, i, earliest);
        PassedOne(old(cfg.reqs), now, cfg.reqs, seen, startIndex);
        i := i + 1;
        if !more {
          return;
        }
      }
    }

    /** Asks the Configurator for more requests. */
    method Generate(ghost log: seq<Action>) returns (ok: bool)
      requires Valid() && Accounts(log)
      modifies this`generated, this`generatedStart
      modifies cfg`reqs, cfg`complete, cfg`generations, cfg`generationFailed
      ensures Valid() && Accounts(log) && |cfg.reqs| >= |old(cfg.reqs)|
      ensures cfg.generations == old(cfg.generations) + 1 && cfg.generationFailed == !ok
      ensures generated == cfg.reqs && generatedStart == startIndex
      ensures ok && |cfg.reqs| == |old(cfg.reqs)| ==>
        Work(cfg.reqs, cfg.maxExtensions) <= Work(old(cfg.reqs), cfg.maxExtensions)
      ensures ok && AllTerminal(cfg.reqs, |cfg.reqs|) ==> cfg.complete
      ensures ok ==> NextIsActionable(cfg.reqs)
    {
      hide SendsAccounted, Errors, FailedErrors;
      ghost var before := cfg.reqs;
      ok := cfg.GenerateRequests();
      generated, generatedStart := cfg.reqs, startIndex;
      if ok {
        GeneratedAccounts(log, before, old(cfg.complete), cfg.reqs, cfg.complete, startIndex, endIndex, retries,
          cfg.givenUp, maxRetries);
        if |before| == |cfg.reqs| {
          forall i | 0 <= i < |before|
            ensures Weight(cfg.reqs[i], cfg.maxExtensions) <= Weight(before[i], cfg.maxExtensions)
          {
            assert GeneratedFrom(before[i], cfg.reqs[i]);
          }
          WorkDrops(before, cfg.reqs, cfg.maxExtensions);
        }
      }
    }

    /** Generation has failed: yields the error that ends the run. */
    method FailGeneration(client: Client)
      requires Valid() && Accounts(client.log) && Records(client) && !client.stopped && cfg.generationFailed
      modifies this`errorCount, this`currentTime, this`advanceCount, cfg`reqs, cfg`confirmations, client
      ensures Ended(client, GenerationError) && client.waits == old(client.waits)
    {
      hide EvolveAll, WindowOk, FailedErrors, SendsAccounted, Errors, SpeedsSent, Sends;
      ghost var before, log := cfg.reqs, client.log;
      LogGrows(log, ReportError(GenerationFailed));
      errorCount := errorCount + 1;
      var _ := client.Yield(this, ReportError(GenerationFailed));
      EvolvedWindow(before, cfg.reqs, startIndex, endIndex);
      EvolvedAccounts(log, before, cfg.reqs, startIndex, retries, cfg.givenUp, maxRetries);
      SameSends(log, client.log, cfg.reqs, retries, cfg.givenUp, maxRetries);
      AccountsBound(client.log, cfg.reqs, retries, cfg.givenUp, maxRetries);
    }

    /** Yields a wait for the earliest deadline of the window. */
    method Wait(client: Client, earliest: Time) returns (more: bool)
      requires Valid() && Accounts(client.log) && Records(client) && !client.stopped && startIndex <= endIndex
      requires ActionRight(WaitUntil(earliest), Seen())
      modifies this`currentTime, this`advanceCount, cfg`reqs, cfg`confirmations, client
      ensures Valid() && Accounts(client.log) && |cfg.reqs| == |old(cfg.reqs)|
      ensures Records(client) && client.stopped == !more && client.waits == old(client.waits) + [old(advanceCount)]
      ensures client.log == old(client.log) + [WaitUntil(earliest)]
      ensures advanceCount >= old(advanceCount) && (client.advances ==> advanceCount > old(advanceCount))
      ensures Remaining(client) == old(Remaining(client)) || Less(Remaining(client), old(Remaining(client)))
      ensures Settled(old(cfg.reqs[startIndex..endIndex]), earliest) ==>
        Less(Remaining(client), old(Remaining(client)))
    {
      hide EvolveAll, WindowOk, FailedErrors, SendsAccounted, Work, RetriesLeft, AllWellFormed, Errors, SpeedsSent;
      hide EarliestOf, Moved, Evolves, Sends;
      ghost var before, log := cfg.reqs, client.log;
      LogGrows(log, WaitUntil(earliest));
      more := client.Yield(this, WaitUntil(earliest));
      EvolvedWindow(before, cfg.reqs, startIndex, endIndex);
      EvolvedAccounts(log, before, cfg.reqs, startIndex, retries, cfg.givenUp, maxRetries);
      SameSends(log, client.log, cfg.reqs, retries, cfg.givenUp, maxRetries);
      EvolvingWork(before, cfg.reqs, cfg.maxExtensions);
      if EarliestOf(before[startIndex..endIndex], earliest) && Moved(before, cfg.reqs, earliest) {
        SettledMoves(before, cfg.reqs, startIndex, endIndex, earliest);
      }
    }

    /** The requests are stuck, as they can be only if they were at risk when last generated, and the client did not
        leave them alone. */
    ghost predicate StuckAtRisk(client: Client)
      reads this, cfg
    {
      && startIndex < |cfg.reqs| && cfg.reqs[startIndex].state == NotReady
      && !client.careful && AtRisk(generated, generatedStart, client.packets)
      && DuringErrors(generated, generatedStart, cfg.reqs, client.packets)
    }

    /** What holds when a run ends with `e`. Every error yielded is counted; no request was sent too often, and none was
        given up before it was sent as often as it may be; every action was the right one when the client was given it;
        and the run was stopped exactly if the client did, unless no more requests could be generated. */
    ghost predicate Ended(client: Client, e: Ending)
      reads this, cfg, client
    {
      && Valid() && errorCount == |Errors(client.log)| && Records(client)
      && SendsBounded(client.log, cfg.reqs, cfg.givenUp, maxRetries)
      && cfg.generationFailed == (e == GenerationError) && (e != GenerationError ==> client.stopped == (e == Stopped))
      && match e
        // Every request is finished, and each failed one was reported exactly once, in order.
        case Finished =>
          cfg.complete && startIndex == |cfg.reqs| && Errors(client.log) == FailedErrors(cfg.reqs, |cfg.reqs|)
        case GenerationError => Errors(client.log) == FailedErrors(cfg.reqs, startIndex) + [GenerationFailed]
        // A client that stops early has been given the errors up to there.
        case Stopped =>
          exists n :: n in {startIndex, startIndex + 1} && n <= |cfg.reqs| &&
            Errors(client.log) == FailedErrors(cfg.reqs, n)
        // The client has not reported the time since the last wait, as it must.
        case ApiMisuse =>
          && !client.advances && client.waits != [] && client.waits[|client.waits| - 1] == advanceCount
          && Errors(client.log) == FailedErrors(cfg.reqs, startIndex)
        case StuckNotReady =>
          && StuckAtRisk(client)
          && Errors(client.log) == FailedErrors(cfg.reqs, startIndex)
    }

    lemma EndsHere(client: Client, e: Ending)
      requires Valid() && Accounts(client.log) && Records(client)
      requires !cfg.generationFailed && client.stopped == (e == Stopped)
      requires match e
        case Finished => cfg.complete && startIndex == |cfg.reqs|
        case GenerationError => false
        case Stopped => true
        case ApiMisuse =>
          !client.advances && client.waits != [] && client.waits[|client.waits| - 1] == advanceCount
        case StuckNotReady => StuckAtRisk(client)
      ensures Ended(client, e)
    {
      AccountsBound(client.log, cfg.reqs, retries, cfg.givenUp, maxRetries);
      assert startIndex in {startIndex, startIndex + 1};
    }

    lemma FinishedBeforeWindow(client: Client, e: Ending)
      requires Ended(client, e)
      ensures Valid() && AllTerminal(cfg.reqs, startIndex)
    {
      hide SendsBounded, Errors, FailedErrors, SpeedsSent, ActionRight, AtRisk, DuringErrors, AllWellFormed, Terminal;
    }

    lemma StopsAtFailure(client: Client)
      requires Valid() && Records(client) && !cfg.generationFailed && client.stopped
      requires StoppedAtFailure(client.log, cfg.reqs, startIndex, errorCount, retries, cfg.givenUp, maxRetries)
      ensures Ended(client, Stopped)
    {
      AccountsBound(client.log, cfg.reqs, retries, cfg.givenUp, maxRetries);
      assert startIndex + 1 in {startIndex, startIndex + 1};
    }

    /** The run is closer to its end than in the state described by the other arguments. */
    ghost predicate Closer(client: Client, count: nat, remaining: (nat, nat, nat), start: nat)
      reads this, cfg, client
    {
      || |cfg.reqs| > count
      || (&& |cfg.reqs| == count
          && (Less(Remaining(client), remaining) || (Remaining(client) == remaining && startIndex > start)))
    }

    /** The second half of a turn: goes through the window that has been brought up to date, and waits if it must.
        Unless the run ends, something moved, or every request is finished. */
    method Proceed(client: Client, lastWait: int, ghost from: nat) returns (end: Option<Ending>, lastWait': int)
      requires Valid() && Accounts(client.log) && startIndex <= endIndex && OpensAt(cfg.reqs, startIndex)
      requires Records(client) && !client.stopped && !cfg.generationFailed
      requires endIndex < |cfg.reqs| ==> !Actionable(cfg.reqs[endIndex].state)
      requires NextIsActionable(generated) && DuringErrors(generated, generatedStart, cfg.reqs, client.packets)
      requires client.careful && Exposed(generated, client.packets) ==> cfg.reqs == generated
      requires Punctual(client.waits, from, lastWait)
      requires lastWait <= advanceCount && (client.advances ==> lastWait < advanceCount)
      modifies this`retries, this`speedChangeRequests, this`currentTime, this`advanceCount, this`visited
      modifies cfg`reqs, cfg`confirmations, cfg`givenUp, client
      ensures Punctual(client.waits, from, lastWait')
      ensures end == None ==> |visited| == endIndex - startIndex
      ensures end == None ==>
        PassLogged(old(client.log), client.log, visited, startIndex, old(retries), maxRetries)
      ensures match end
        case Some(e) => Ended(client, e) && (e == ApiMisuse ==> |client.waits| > from)
        case None =>
          && Valid() && Accounts(client.log) && |cfg.reqs| == |old(cfg.reqs)| && Records(client) && !client.stopped
          && lastWait' <= advanceCount && (client.advances ==> lastWait' < advanceCount)
          && (Less(Remaining(client), old(Remaining(client))) ||
              (cfg.reqs == old(cfg.reqs) && Remaining(client) == old(Remaining(client)) && startIndex == |cfg.reqs|))
    {
      hide SendsAccounted, WindowOk, FailedErrors, Errors, Work, AllWellFormed, RetriesLeft, Ended, AllTerminal;
      hide Exposed, FailureAhead, Stuck, NextIsActionable, OpensAt, DuringErrors, AtRisk, Settled, Records, Punctual;
      hide SendsDue, GivenUpIn, Passed, EarliestOf, ActionRight, PassLogged;
      end, lastWait' := None, lastWait;
      GuardMeansStuck(cfg.reqs, startIndex, endIndex);
      EmptyWhenNothingToDo(cfg.reqs, startIndex, endIndex);
      ghost var before := cfg.reqs;
      var more, earliest := ProcessWindow(client);
      if !more {
        EndsHere(client, Stopped);
        return Some(Stopped), lastWait;
      }
      if earliest != 0 {
        if advanceCount == lastWait {
          LastWaitWas(client.waits, from, lastWait);
          EndsHere(client, ApiMisuse);
          return Some(ApiMisuse), lastWait;
        }
        lastWait' := advanceCount;
        WaitIsRight(before, Seen(), earliest);
        WaitsOn(client.waits, from, lastWait, advanceCount);
        more := Wait(client, earliest);
        if !more {
          EndsHere(client, Stopped);
          return Some(Stopped), lastWait';
        }
        PassIsLogged(old(client.log), client.log, visited, startIndex, old(retries), maxRetries, earliest);
      } else if startIndex >= endIndex && startIndex < |cfg.reqs| {
        StuckAtRiskHere(generated, generatedStart, cfg.reqs, startIndex, client.packets, client.careful);
        EndsHere(client, StuckNotReady);
        return Some(StuckNotReady), lastWait;
      } else {
        PassIsLogged(old(client.log), client.log, visited, startIndex, old(retries), maxRetries, earliest);
      }
    }

    /** One turn of the loop of Actions: either the run ends, or it gets closer to its end. */
    method Turn(client: Client, lastWait: int, ghost from: nat) returns (end: Option<Ending>, lastWait': int)
      requires Valid() && Accounts(client.log) && Records(client) && !client.stopped
      requires Punctual(client.waits, from, lastWait)
      requires lastWait <= advanceCount && (client.advances ==> lastWait < advanceCount)
      modifies this, cfg, client
      ensures cfg.generations == old(cfg.generations) + 1
      ensures old(startIndex) <= old(endIndex) && end != Some(Stopped) ==> startIndex <= endIndex
      ensures Punctual(client.waits, from, lastWait')
      ensures end == None ==> |visited| == endIndex - startIndex
      ensures end == None ==>
        TurnLogged(old(client.log), client.log, visited, startIndex, old(retries), maxRetries)
      ensures match end
        case Some(e) => Ended(client, e) && (e == ApiMisuse ==> |client.waits| > from)
        case None =>
          && Valid() && Accounts(client.log) && Records(client) && !client.stopped
          && lastWait' <= advanceCount && (client.advances ==> lastWait' < advanceCount)
          && Closer(client, |old(cfg.reqs)|, old(Remaining(client)), old(startIndex))
    {
      hide SendsAccounted, WindowOk, FailedErrors, Errors, Work, AllWellFormed, RetriesLeft, EvolveAll, Ended;
      hide AllTerminal, Exposed, FailureAhead, NextIsActionable, DuringErrors, OpensAt, Actionable, Records, Punctual;
      hide OnlyErrors, PassLogged;
      end, lastWait' := None, lastWait;
      var ok := Generate(client.log);
      if !ok {
        FailGeneration(client);
        return Some(GenerationError), lastWait;
      }
      if cfg.complete && startIndex >= |cfg.reqs| {
        EndsHere(client, Finished);
        return Some(Finished), lastWait;
      }
      var more := UpdateWindow(client);
      if !more {
        StopsAtFailure(client);
        return Some(Stopped), lastWait;
      }
      ErrorsAreWork(generated, generatedStart, cfg.reqs, client.packets, cfg.maxExtensions);
      OpensAtEnd(cfg.reqs, startIndex);
      ghost var reported := client.log;
      end, lastWait' := Proceed(client, lastWait, from);
      assert end == None ==> PassLogged(reported, client.log, visited, startIndex, old(retries), maxRetries);
    }

    /** Runs the configuration: generates requests, and yields actions to the client, until all are finished. */
    method Actions(client: Client) returns (e: Ending)
      requires Valid() && Accounts(client.log) && Records(client)
      modifies this, cfg, client
      ensures Ended(client, e) && AllTerminal(cfg.reqs, startIndex)
      // The window is one, unless the client stopped while its start was being moved.
      ensures old(startIndex) <= old(endIndex) && e != Stopped ==> startIndex <= endIndex
      // Between two waits of the run the client reported the time.
      ensures |client.waits| >= |old(client.waits)| + if e == ApiMisuse then 1 else 0
      ensures forall j, k :: |old(client.waits)| <= j < k < |client.waits| ==> client.waits[j] < client.waits[k]
    {
      var lastWaitAdvanceCount: int := -1;
      client.stopped := false;
      while true
        invariant Valid() && Accounts(client.log) && Records(client) && !client.stopped
        invariant old(startIndex) <= old(endIndex) ==> startIndex <= endIndex
        invariant Punctual(client.waits, |old(client.waits)|, lastWaitAdvanceCount)
        invariant lastWaitAdvanceCount <= advanceCount && (client.advances ==> lastWaitAdvanceCount < advanceCount)
        decreases cfg.maxRequests - |cfg.reqs|, Remaining(client).0, Remaining(client).1, Remaining(client).2,
          |cfg.reqs| - startIndex
      {
        hide SendsAccounted, WindowOk, FailedErrors, Errors, Work, AllWellFormed, RetriesLeft, Records, Punctual, Ended;
        hide TurnLogged, AllTerminal;
        var end;
        end, lastWaitAdvanceCount := Turn(client, lastWaitAdvanceCount, |old(client.waits)|);
        if end.Some? {
          FinishedBeforeWindow(client, end.value);
          WaitsPunctual(client.waits, |old(client.waits)|, lastWaitAdvanceCount);
          return end.value;
        }
      }
    }
  }

  /** A whole configuration run of a fresh director, as gps/app/gpscfg/gpscfg.go starts it. */
  method Configure(cfg: Configurator, client: Client, maxRetries: int) returns (cd: Director, e: Ending)
    requires cfg.Valid() && cfg.givenUp == {} && client.log == [] && client.seen == []
    requires forall i :: 0 <= i < |cfg.reqs| ==> cfg.reqs[i].state in {NotReady, ReadyToSend, Skipped}
    modifies cfg, client
    ensures cd.cfg == cfg && cd.Valid() && cd.errorCount == |Errors(client.log)|
    ensures SendsBounded(client.log, cfg.reqs, cfg.givenUp, maxRetries) && client.AllRight()
    ensures cfg.generationFailed == (e == GenerationError)
    ensures e == Finished ==>
      AllTerminal(cfg.reqs, |cfg.reqs|) && Errors(client.log) == FailedErrors(cfg.reqs, |cfg.reqs|)
    ensures client.advances && e !in {Finished, GenerationError, Stopped} ==>
      e == StuckNotReady && !client.careful && AtRisk(cd.generated, cd.generatedStart, client.packets)
  {
    cd := new Director(cfg, maxRetries);
    e := cd.Actions(client);
  }
}
