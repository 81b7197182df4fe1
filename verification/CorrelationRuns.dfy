/** What holds over every run of the correlator: any messages sent, any packets received, in any order. */
module CorrelationRuns {
  import opened Options
  import opened Correlation

  datatype Event = Sent(analysis: RequestAnalysis) | Received(tag: string, data: string)

  /** One event takes the requests from `a` to `b`; `cor` is the result for a packet. */
  ghost predicate Step(analyzers: Analyzers, a: seq<RequestState>, e: Event, b: seq<RequestState>, cor: Correlation) {
    match e
    case Sent(analysis) => b == a + [Fresh(analysis)] && cor == Unattributed(NotResponse)
    case Received(tag, data) => Correlated(a, tag, data, Classify(analyzers, tag, data), b, cor)
  }

  /** A run from the start: states[k] holds before event k, cors[k] is its result. */
  ghost predicate Run(analyzers: Analyzers, es: seq<Event>, states: seq<seq<RequestState>>, cors: seq<Correlation>) {
    && |states| == |es| + 1 && |cors| == |es| && states[0] == []
    && forall k :: 0 <= k < |es| ==> Step(analyzers, states[k], es[k], states[k + 1], cors[k])
  }

  /** Every message was sent only when ReadyToSend allowed it. */
  ghost predicate Paced(es: seq<Event>, states: seq<seq<RequestState>>)
    requires |states| > |es|
  {
    forall k :: 0 <= k < |es| && es[k].Sent? ==> ReadyFor(states[k], es[k].analysis)
  }

  /** At most one request awaits an acknowledgement of any tag and non-empty key. */
  ghost predicate Unambiguous(rs: seq<RequestState>) {
    forall i, j :: 0 <= i < j < |rs| && rs[i].analysis.ackCorrelate != "" ==>
      !(Awaits(rs[i], rs[i].analysis.ackTag, rs[i].analysis.ackCorrelate) &&
        Awaits(rs[j], rs[i].analysis.ackTag, rs[i].analysis.ackCorrelate))
  }

  /** How one packet may change one request. */
  ghost predicate Advances(a: RequestState, b: RequestState) {
    || a == b
    || (exists tag: string, ra: ResponseAnalysis ::
          IsAckKind(ra.kind) && AckMatches(a, tag, ra) && b == AckEffect(a, ra))
    || (exists tag: string, data: string, unclaimed: bool :: DataMatches(a, tag, data, unclaimed) && b == DataEffect(a))
  }

  ghost predicate OnlyChanges(a: seq<RequestState>, b: seq<RequestState>, i: nat)
    requires i < |a|
  {
    |b| == |a| && forall j :: 0 <= j < |a| && j != i ==> b[j] == a[j]
  }

  /** A packet changes at most one request. */
  lemma PacketChangesOne(analyzers: Analyzers, a: seq<RequestState>, tag: string, data: string,
    b: seq<RequestState>, cor: Correlation)
    requires Step(analyzers, a, Received(tag, data), b, cor)
    ensures |b| == |a|
    ensures b == a || exists i: nat :: i < |a| && OnlyChanges(a, b, i)
    ensures forall j :: 0 <= j < |a| ==> Advances(a[j], b[j])
  {
    var ra := Classify(analyzers, tag, data);
    if b != a {
      if IsAckKind(ra.kind) && AckCandidates(a, tag, ra) != {} {
        var i :| i in AckCandidates(a, tag, ra) && b == a[i := AckEffect(a[i], ra)];
        assert OnlyChanges(a, b, i);
        assert AckMatches(a[i], tag, ra);
      } else {
        var unclaimed := IsAckKind(ra.kind);
        var i :| i in DataCandidates(a, tag, data, unclaimed) && b == a[i := DataEffect(a[i])];
        assert OnlyChanges(a, b, i);
        assert DataMatches(a[i], tag, data, unclaimed);
      }
    }
  }

  /** Completeness is never undone, a request that no longer awaits an acknowledgement, or data, never does again, and a
      rejected request never changes. */
  lemma AdvanceKeeps(a: RequestState, b: RequestState)
    requires Advances(a, b)
    ensures b.analysis == a.analysis
    ensures Complete(a) ==> Complete(b)
    ensures Awaiting(b.ack) ==> Awaiting(a.ack)
    ensures b.data == DataWait ==> a.data == DataWait
    ensures Consistent(a) ==> Consistent(b)
    ensures Consistent(a) && a.ack == AckFailed ==> b == a
  {
  }

  /** The two status fields of a request fit together and fit what it expects. */
  predicate Consistent(rs: RequestState) {
    && (rs.analysis.expectAck == ExpectAckNone <==> rs.ack == AckNotExpected)
    && (rs.ack == AckFailed ==> rs.data == DataNotExpected)
    && (rs.analysis.expectData == DataWithAck && rs.ack == AckSuccess ==> rs.data == DataReceived)
  }

  lemma {:induction false} PacedUpTo(analyzers: Analyzers, es: seq<Event>, states: seq<seq<RequestState>>,
    cors: seq<Correlation>, k: nat)
    requires Run(analyzers, es, states, cors) && Paced(es, states) && k <= |es|
    ensures Unambiguous(states[k])
  {
    if k > 0 {
      PacedUpTo(analyzers, es, states, cors, k - 1);
      var a, b := states[k - 1], states[k];
      assert Step(analyzers, a, es[k - 1], b, cors[k - 1]);
      match es[k - 1]
      case Sent(analysis) =>
        assert b == a + [Fresh(analysis)];
      case Received(tag, data) =>
        PacketChangesOne(analyzers, a, tag, data, b, cors[k - 1]);
        forall i | 0 <= i < |a| ensures b[i].analysis == a[i].analysis
          ensures forall t, key :: Awaits(b[i], t, key) ==> Awaits(a[i], t, key)
        {
          AdvanceKeeps(a[i], b[i]);
        }
    }
  }

  /** Pacing makes acknowledgements unambiguous: in every state of a paced run, an acknowledgement with a key fits
      at most one request, so it is never reported as ambiguous. */
  lemma PacingMakesAcksUnambiguous(analyzers: Analyzers, es: seq<Event>, states: seq<seq<RequestState>>,
    cors: seq<Correlation>, k: nat, tag: string, ra: ResponseAnalysis)
    requires Run(analyzers, es, states, cors) && Paced(es, states) && k <= |es|
    requires ra.ackCorrelate != ""
    ensures |AckCandidates(states[k], tag, ra)| <= 1
    ensures forall b: seq<RequestState>, cor: Correlation ::
      AckCorrelated(states[k], tag, ra, b, cor) ==> cor.relevance != AmbigResponse
  {
    PacedUpTo(analyzers, es, states, cors, k);
    var m := AckCandidates(states[k], tag, ra);
    if i :| i in m {
      assert forall j :: j in m ==> j == i;
      assert m == {i};
    }
  }

  /** Over any stretch of a run, paced or not: requests keep what they expect, completeness is never undone, data is
      not awaited again, and a rejected request is never touched again. */
  lemma {:induction false} RequestsOnlyAdvance(analyzers: Analyzers, es: seq<Event>, states: seq<seq<RequestState>>,
    cors: seq<Correlation>, k: nat, l: nat)
    requires Run(analyzers, es, states, cors) && k <= l <= |es|
    ensures |states[k]| <= |states[l]|
    ensures forall i :: 0 <= i < |states[l]| ==> Consistent(states[l][i])
    ensures forall i :: 0 <= i < |states[k]| ==>
      && states[l][i].analysis == states[k][i].analysis
      && (Complete(states[k][i]) ==> Complete(states[l][i]))
      && (states[l][i].data == DataWait ==> states[k][i].data == DataWait)
      && (states[k][i].ack == AckFailed ==> states[l][i] == states[k][i])
  {
    if l > 0 {
      RequestsOnlyAdvance(analyzers, es, states, cors, if k < l then k else l - 1, l - 1);
      var a, b := states[l - 1], states[l];
      assert Step(analyzers, a, es[l - 1], b, cors[l - 1]);
      if es[l - 1].Received? {
        PacketChangesOne(analyzers, a, es[l - 1].tag, es[l - 1].data, b, cors[l - 1]);
        forall i | 0 <= i < |a|
          ensures Consistent(b[i]) && b[i].analysis == a[i].analysis
          ensures Complete(a[i]) ==> Complete(b[i])
          ensures b[i].data == DataWait ==> a[i].data == DataWait
          ensures a[i].ack == AckFailed ==> b[i] == a[i]
        {
          AdvanceKeeps(a[i], b[i]);
        }
      }
    }
  }

  /** When a request is complete: it was rejected, or it has all it firmly expects and expects nothing open-ended. */
  lemma CompleteMeans(rs: RequestState)
    requires Consistent(rs)
    ensures Complete(rs) <==>
      || rs.ack == AckFailed
      || (rs.analysis.expectData == DataNone && rs.analysis.expectAck == ExpectAckNone)
      || (rs.analysis.expectData == DataNone && rs.analysis.expectAck == ExpectAckOrNak && rs.ack == AckSuccess)
      || (rs.analysis.expectData == DataWithAck && rs.ack == AckSuccess)
      || (rs.analysis.expectData == DataSingle && rs.data == DataReceived &&
          (rs.analysis.expectAck == ExpectAckOrNak ==> rs.ack == AckSuccess))
  {
  }

  /** The packet is data that only request `i` can take: it is no acknowledgement, or one nobody awaits. */
  ghost predicate OnlyTakenBy(analyzers: Analyzers, rs: seq<RequestState>, tag: string, data: string, i: nat) {
    var ra := Classify(analyzers, tag, data);
    var unclaimed := ra.kind in {Ack, Nak, Wait, AckMore, Done};
    && i < |rs| && (if unclaimed then AckCandidates(rs, tag, ra) == {} else ra.kind in {Data, MaybeData})
    && forall j :: 0 <= j < |rs| ==> (DataMatches(rs[j], tag, data, unclaimed) <==> j == i)
  }

  /** What becomes of the one request a data packet fits: it has its data if it expects a known number of packets or
      more, and is complete if that is all it expects; how relevant the packet is depends on that expectation alone. */
  lemma DataTaken(analyzers: Analyzers, a: seq<RequestState>, tag: string, data: string, b: seq<RequestState>,
    cor: Correlation, i: nat)
    requires Step(analyzers, a, Received(tag, data), b, cor) && OnlyTakenBy(analyzers, a, tag, data, i)
    ensures |b| == |a| && OnlyChanges(a, b, i)
    ensures b[i].analysis == a[i].analysis && b[i].ack == a[i].ack && b[i].ackError == a[i].ackError
    ensures a[i].analysis.expectData in {DataSingle, DataMultiple} ==> b[i].data == DataReceived
    ensures a[i].analysis.expectData !in {DataSingle, DataMultiple} ==> b[i] == a[i]
    ensures a[i].analysis.expectData == DataSingle && a[i].analysis.expectAck != ExpectAckOrNak ==> Complete(b[i])
    ensures cor.ack == NoAck && cor.nakError == "" && cor.inResponseTo == None
    ensures a[i].analysis.expectData == DataSingle <==> cor.relevance == SoleResponse
    ensures a[i].analysis.expectData == DataMultiple <==> cor.relevance == MultiResponse
    ensures a[i].analysis.expectData in {DataAmbig, DataUnknown} <==> cor.relevance == MaybeResponse
  {
    var unclaimed := Classify(analyzers, tag, data).kind in {Ack, Nak, Wait, AckMore, Done};
    assert DataCandidates(a, tag, data, unclaimed) == {i};
  }

  /** A request that expects a single data packet takes at most one in any run: once it has taken one, no packet fits it
      again. */
  lemma SingleDataOnce(analyzers: Analyzers, es: seq<Event>, states: seq<seq<RequestState>>, cors: seq<Correlation>,
    k: nat, l: nat, i: nat)
    requires Run(analyzers, es, states, cors) && k < l <= |es|
    requires es[k].Received? && OnlyTakenBy(analyzers, states[k], es[k].tag, es[k].data, i)
    requires states[k][i].analysis.expectData == DataSingle
    ensures i < |states[l]|
    ensures forall tag, data, unclaimed :: !DataMatches(states[l][i], tag, data, unclaimed)
    ensures forall tag, data :: !OnlyTakenBy(analyzers, states[l], tag, data, i)
  {
    assert Step(analyzers, states[k], es[k], states[k + 1], cors[k]);
    DataTaken(analyzers, states[k], es[k].tag, es[k].data, states[k + 1], cors[k], i);
    RequestsOnlyAdvance(analyzers, es, states, cors, k + 1, l);
  }

  /** What becomes of the one request an acknowledgement fits. A rejection ends it, and its error is kept and reported;
      an interim answer leaves all but its status alone; an acceptance completes it if it expects no separate data. */
  lemma AckTaken(analyzers: Analyzers, a: seq<RequestState>, tag: string, data: string, b: seq<RequestState>,
    cor: Correlation, i: nat)
    requires Step(analyzers, a, Received(tag, data), b, cor) && i < |a| && Consistent(a[i])
    requires var ra := Classify(analyzers, tag, data);
      ra.kind in {Ack, Nak, Wait, AckMore, Done} && AckCandidates(a, tag, ra) == {i}
    ensures |b| == |a| && OnlyChanges(a, b, i) && b[i].analysis == a[i].analysis
    ensures var ra, rs := Classify(analyzers, tag, data), a[i].analysis;
      match ra.kind
      case Nak =>
        && Complete(b[i]) && b[i].ack == AckFailed && b[i].ackError == ra.ackError && !LacksData(b[i])
        && cor == Correlation(IsNak, ra.ackError, Some(i), AckOnly)
      case Wait =>
        && !Complete(b[i]) && !Answered(b[i].ack) && Awaiting(b[i].ack) && b[i].data == a[i].data
        && cor == Correlation(OtherAck, "", Some(i), AckOnly)
      case AckMore =>
        && !Complete(b[i]) && b[i].ack == AckSuccessMore && b[i].data == a[i].data
        && cor == Correlation(IsAck, "", Some(i), MaybeResponse)
      case Done =>
        && b[i].ack == AckSuccess && b[i].data == DataReceived && cor == Unattributed(SoleResponse)
        && (rs.expectData in {DataWithAck, DataSingle} ==> Complete(b[i]))
      case _ =>
        && b[i].ack == AckSuccess && (rs.expectData != DataWithAck ==> b[i].data == a[i].data)
        && (rs.expectData == DataWithAck ==> Complete(b[i]) && b[i].data == DataReceived)
        && (rs.expectData == DataNone && rs.expectAck == ExpectAckOrNak ==> Complete(b[i]))
        && cor == Correlation(IsAck, "", Some(i), if rs.expectData == DataWithAck then SoleResponse else AckOnly)
  {
    var ra := Classify(analyzers, tag, data);
    assert i in AckCandidates(a, tag, ra) && AckMatches(a[i], tag, ra);
  }

  /** How often request `i` was reported accepted or rejected. */
  function Reports(cors: seq<Correlation>, i: nat): nat {
    if cors == [] then 0
    else Reports(cors[..|cors| - 1], i) + if Reported(cors[|cors| - 1], i) then 1 else 0
  }

  predicate Reported(cor: Correlation, i: nat) {
    cor.ack in {IsAck, IsNak} && cor.inResponseTo == Some(i)
  }

  predicate Answered(ack: AckStatus) {
    ack in {AckSuccessMore, AckSuccess, AckFailed}
  }

  /** Each request is reported accepted or rejected at most once, and exactly when its state says so. */
  lemma {:induction false} ReportedOnce(analyzers: Analyzers, es: seq<Event>, states: seq<seq<RequestState>>,
    cors: seq<Correlation>, k: nat)
    requires Run(analyzers, es, states, cors) && k <= |es|
    ensures forall i: nat :: Reports(cors[..k], i) == if i < |states[k]| && Answered(states[k][i].ack) then 1 else 0
  {
    if k > 0 {
      ReportedOnce(analyzers, es, states, cors, k - 1);
      StepReports(analyzers, states[k - 1], es[k - 1], states[k], cors[k - 1]);
      hide Step, Reported, Answered, Reports;
      forall i: nat ensures Reports(cors[..k], i) ==
        Reports(cors[..k - 1], i) + if Reported(cors[k - 1], i) then 1 else 0
      {
        OneMoreReport(cors, k - 1, i);
      }
    }
  }

  lemma OneMoreReport(cors: seq<Correlation>, k: nat, i: nat)
    requires k < |cors|
    ensures Reports(cors[..k + 1], i) == Reports(cors[..k], i) + if Reported(cors[k], i) then 1 else 0
  {
    assert cors[..k + 1][..k] == cors[..k];
  }

  lemma StepReports(analyzers: Analyzers, a: seq<RequestState>, e: Event, b: seq<RequestState>, cor: Correlation)
    requires Step(analyzers, a, e, b, cor)
    ensures |a| <= |b|
    ensures forall i: nat :: Reported(cor, i) <==> i < |b| && Answered(b[i].ack) && !(i < |a| && Answered(a[i].ack))
    ensures forall i: nat :: i < |a| && Answered(a[i].ack) ==> Answered(b[i].ack)
  {
    match e
    case Sent(_) =>
    case Received(tag, data) =>
      var ra := Classify(analyzers, tag, data);
      if IsAckKind(ra.kind) && AckCandidates(a, tag, ra) != {} {
        AckReports(a, tag, ra, b, cor);
      } else {
        DataReports(a, tag, data, IsAckKind(ra.kind), b, cor);
      }
  }

  lemma AckReports(a: seq<RequestState>, tag: string, ra: ResponseAnalysis, b: seq<RequestState>, cor: Correlation)
    requires IsAckKind(ra.kind) && AckCorrelated(a, tag, ra, b, cor)
    ensures |a| == |b|
    ensures forall i: nat :: Reported(cor, i) <==> i < |b| && Answered(b[i].ack) && !Answered(a[i].ack)
    ensures forall i: nat :: i < |a| && Answered(a[i].ack) ==> Answered(b[i].ack)
  {
    if |AckCandidates(a, tag, ra)| == 1 {
      var i :| i in AckCandidates(a, tag, ra) && b == a[i := AckEffect(a[i], ra)] && cor == AckReport(i, a[i], ra);
      AckAnswers(i, a[i], tag, ra);
      hide AckEffect, AckReport, AckMatches, AckCandidates;
    }
  }

  lemma AckAnswers(i: nat, rs: RequestState, tag: string, ra: ResponseAnalysis)
    requires IsAckKind(ra.kind) && AckMatches(rs, tag, ra)
    ensures forall j: nat :: Reported(AckReport(i, rs, ra), j) <==>
      j == i && Answered(AckEffect(rs, ra).ack) && !Answered(rs.ack)
    ensures Answered(rs.ack) ==> Answered(AckEffect(rs, ra).ack)
  {
  }

  lemma DataReports(a: seq<RequestState>, tag: string, data: string, unclaimed: bool, b: seq<RequestState>,
    cor: Correlation)
    requires DataCorrelated(a, tag, data, unclaimed, b, cor) || (b == a && cor.inResponseTo == None && cor.ack == NoAck)
    ensures |a| == |b| && cor.inResponseTo == None
    ensures forall i: nat :: i < |a| ==> b[i].ack == a[i].ack
  {
    if b != a || cor.inResponseTo != None {
      var i :| i in DataCandidates(a, tag, data, unclaimed) && b == a[i := DataEffect(a[i])] && cor == DataReport(a[i]);
    }
  }

  /** When no request can accept more, no firm expectation is unmet. */
  lemma NothingMissing(analyzers: Analyzers, es: seq<Event>, states: seq<seq<RequestState>>, cors: seq<Correlation>,
    k: nat)
    requires Run(analyzers, es, states, cors) && k <= |es|
    requires forall i :: 0 <= i < |states[k]| ==> Complete(states[k][i])
    ensures forall i :: 0 <= i < |states[k]| ==> !LacksAck(states[k][i]) && !LacksData(states[k][i])
  {
    RequestsOnlyAdvance(analyzers, es, states, cors, k, k);
    forall i | 0 <= i < |states[k]| ensures !LacksAck(states[k][i]) && !LacksData(states[k][i]) {
      assert Consistent(states[k][i]) && Complete(states[k][i]);
    }
  }
}
