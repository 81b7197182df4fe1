/** The request/response correlator of gps/msgfile/correlate.go. */
module Correlation {
  import opened Sequences
  import opened Options

  datatype AckExpectation = ExpectAckNone | ExpectAckOrNak | ExpectAckNakOnly

  datatype DataExpectation =
    DataUnknown | DataNone | DataWithAck | DataAmbig | DataSingle | DataMultiple

  /** What a sent message lets us expect. */
  datatype RequestAnalysis = RequestAnalysis(
    ackTag: string, ackCorrelate: string, expectAck: AckExpectation,
    expectData: DataExpectation, dataTag: string, dataMatch: Option<string -> bool>)

  datatype ResponseKind =
    MaybeData | NotData | Info | Data | Ack | Nak | Wait | AckMore | Done

  datatype ResponseAnalysis = ResponseAnalysis(kind: ResponseKind, ackCorrelate: string, ackError: string)

  datatype AckStatus = AckNotExpected | AckWait | AckWaitMore | AckSuccessMore | AckSuccess | AckFailed

  datatype DataStatus = DataNotExpected | DataWait | DataReceived

  datatype RequestState = RequestState(analysis: RequestAnalysis, ack: AckStatus, ackError: string, data: DataStatus)

  datatype Relevance = AckOnly | NotResponse | MaybeResponse | AmbigResponse | MultiResponse | SoleResponse

  datatype AckKind = NoAck | IsAck | IsNak | OtherAck

  /** The result of correlating a packet. `inResponseTo` is the index of the request among those sent. */
  datatype Correlation = Correlation(ack: AckKind, nakError: string, inResponseTo: Option<nat>, relevance: Relevance)

  type Analyzers = map<string, string -> ResponseAnalysis>

  function Unattributed(relevance: Relevance): Correlation {
    Correlation(NoAck, "", None, relevance)
  }

  /** The state of a request that has just been sent. */
  function Fresh(a: RequestAnalysis): RequestState {
    RequestState(a, if a.expectAck == ExpectAckNone then AckNotExpected else AckWait, "",
      if a.expectData == DataNone then DataNotExpected else DataWait)
  }

  predicate Complete(rs: RequestState) {
    var a := rs.analysis;
    match a.expectData
    case DataNone =>
      (match a.expectAck
       case ExpectAckOrNak => rs.ack == AckSuccess || rs.ack == AckFailed
       case ExpectAckNakOnly => rs.ack == AckFailed
       case ExpectAckNone => true)
    case DataUnknown => rs.ack == AckFailed
    case DataWithAck => rs.ack == AckSuccess || rs.ack == AckFailed
    case DataAmbig => a.expectAck != ExpectAckNone && rs.ack == AckFailed
    case DataSingle =>
      (match a.expectAck
       case ExpectAckOrNak => (rs.ack == AckSuccess && rs.data == DataReceived) || rs.ack == AckFailed
       case ExpectAckNakOnly => rs.ack == AckFailed || rs.data == DataReceived
       case ExpectAckNone => rs.data == DataReceived)
    case DataMultiple => a.expectAck != ExpectAckNone && rs.ack == AckFailed
  }

  predicate Awaiting(ack: AckStatus) {
    ack == AckWait || ack == AckWaitMore || ack == AckSuccessMore
  }

  /** Request `rs` still awaits an acknowledgement of the given tag and key. */
  predicate Awaits(rs: RequestState, tag: string, key: string) {
    !Complete(rs) && Awaiting(rs.ack) && rs.analysis.ackTag == tag && rs.analysis.ackCorrelate == key
  }

  /** Sending a message with analysis `a` would not make its acknowledgement ambiguous. */
  predicate ReadyFor(requests: seq<RequestState>, a: RequestAnalysis) {
    a.expectAck == ExpectAckNone || a.ackCorrelate == "" ||
    forall i :: 0 <= i < |requests| ==> !Awaits(requests[i], a.ackTag, a.ackCorrelate)
  }

  /** The acknowledgement `ra` on `tag` could belong to request `rs`. */
  predicate AckMatches(rs: RequestState, tag: string, ra: ResponseAnalysis) {
    && Awaits(rs, tag, ra.ackCorrelate)
    && (if ra.kind == Done then rs.ack == AckSuccessMore else rs.ack != AckSuccessMore)
  }

  /** The packet could be data for request `rs`. */
  predicate DataMatches(rs: RequestState, tag: string, data: string, unclaimedAck: bool) {
    var a := rs.analysis;
    && (unclaimedAck ==> a.expectAck == ExpectAckNone)
    && a.expectData != DataWithAck
    && (rs.data == DataWait || (rs.data == DataReceived && a.expectData == DataMultiple))
    && (a.dataTag == "" || a.dataTag == tag)
    && (a.dataMatch.Some? ==> a.dataMatch.value(data))
  }

  predicate IsAckKind(kind: ResponseKind) {
    kind in {Ack, Nak, Wait, AckMore, Done}
  }

  /** What an acknowledgement does to the request it belongs to. */
  function AckEffect(rs: RequestState, ra: ResponseAnalysis): RequestState {
    match ra.kind
    case Ack => rs.(ack := AckSuccess, data := if rs.analysis.expectData == DataWithAck then DataReceived else rs.data)
    case Nak => rs.(ack := AckFailed, ackError := ra.ackError, data := DataNotExpected)
    case Wait => rs.(ack := AckWaitMore)
    case AckMore => rs.(ack := AckSuccessMore)
    case Done => rs.(ack := AckSuccess, data := DataReceived)
    case _ => rs
  }

  function AckReport(i: nat, rs: RequestState, ra: ResponseAnalysis): Correlation {
    match ra.kind
    case Ack => Correlation(IsAck, "", Some(i), if rs.analysis.expectData == DataWithAck then SoleResponse else AckOnly)
    case Nak => Correlation(IsNak, ra.ackError, Some(i), AckOnly)
    case Wait => Correlation(OtherAck, "", Some(i), AckOnly)
    case AckMore => Correlation(IsAck, "", Some(i), MaybeResponse)
    case Done => Unattributed(SoleResponse)
    case _ => Unattributed(NotResponse)
  }

  function DataEffect(rs: RequestState): RequestState {
    if rs.analysis.expectData in {DataSingle, DataMultiple} then rs.(data := DataReceived) else rs
  }

  function DataReport(rs: RequestState): Correlation {
    match rs.analysis.expectData
    case DataSingle => Unattributed(SoleResponse)
    case DataMultiple => Unattributed(MultiResponse)
    case DataAmbig => Unattributed(MaybeResponse)
    case DataUnknown => Unattributed(MaybeResponse)
    case _ => Unattributed(NotResponse)
  }

  function AckCandidates(requests: seq<RequestState>, tag: string, ra: ResponseAnalysis): set<nat> {
    set i: nat | i < |requests| && AckMatches(requests[i], tag, ra)
  }

  function DataCandidates(requests: seq<RequestState>, tag: string, data: string, unclaimedAck: bool): set<nat> {
    set i: nat | i < |requests| && DataMatches(requests[i], tag, data, unclaimedAck)
  }

  function Classify(analyzers: Analyzers, tag: string, data: string): ResponseAnalysis {
    if tag in analyzers then analyzers[tag](data) else ResponseAnalysis(MaybeData, "", "")
  }

  /** The packet is taken by the one request it can belong to; with no or several such requests nothing changes. */
  ghost predicate AckCorrelated(a: seq<RequestState>, tag: string, ra: ResponseAnalysis,
    b: seq<RequestState>, cor: Correlation)
  {
    var m := AckCandidates(a, tag, ra);
    if |m| != 1 then b == a && cor == Unattributed(if m == {} then NotResponse else AmbigResponse)
    else exists i :: i in m && b == a[i := AckEffect(a[i], ra)] && cor == AckReport(i, a[i], ra)
  }

  ghost predicate DataCorrelated(a: seq<RequestState>, tag: string, data: string, unclaimedAck: bool,
    b: seq<RequestState>, cor: Correlation)
  {
    var m := DataCandidates(a, tag, data, unclaimedAck);
    if |m| != 1 then b == a && cor == Unattributed(if m == {} then NotResponse else AmbigResponse)
    else exists i :: i in m && b == a[i := DataEffect(a[i])] && cor == DataReport(a[i])
  }

  /** What correlating a packet classified as `ra` does. An acknowledgement nobody claims is treated as data for
      requests that expect none. */
  ghost predicate Correlated(a: seq<RequestState>, tag: string, data: string, ra: ResponseAnalysis,
    b: seq<RequestState>, cor: Correlation)
  {
    if IsAckKind(ra.kind) then
      if AckCandidates(a, tag, ra) != {} then AckCorrelated(a, tag, ra, b, cor)
      else DataCorrelated(a, tag, data, true, b, cor)
    else if ra.kind in {Data, MaybeData} then DataCorrelated(a, tag, data, false, b, cor)
    else b == a && cor == Unattributed(if ra.kind == Info then MaybeResponse else NotResponse)
  }

  class Correlator {
    const analyzers: Analyzers
    var requests: seq<RequestState>

    constructor (analyzers: Analyzers)
      ensures this.analyzers == analyzers && requests == []
    {
      this.analyzers, requests := analyzers, [];
    }

    method NotifyMsgSent(a: RequestAnalysis)
      modifies this
      ensures requests == old(requests) + [Fresh(a)]
    {
      var ack := match a.expectAck case ExpectAckNone => AckNotExpected case _ => AckWait;
      var data := if a.expectData == DataNone then DataNotExpected else DataWait;
      requests := requests + [RequestState(a, ack, "", data)];
    }

    method ReadyToSend(a: RequestAnalysis) returns (ready: bool)
      ensures ready == ReadyFor(requests, a)
    {
      if a.expectAck == ExpectAckNone || a.ackCorrelate == "" {
        return true;
      }
      for i := 0 to |requests|
        invariant forall j :: 0 <= j < i ==> !Awaits(requests[j], a.ackTag, a.ackCorrelate)
      {
        var rs := requests[i];
        if !Complete(rs) && rs.ack in {AckWait, AckWaitMore, AckSuccessMore} && rs.analysis.ackTag == a.ackTag
          && rs.analysis.ackCorrelate == a.ackCorrelate {
          return false;
        }
      }
      return true;
    }

    method CorrelateAck(tag: string, ra: ResponseAnalysis) returns (cor: Correlation)
      requires IsAckKind(ra.kind)
      modifies this
      ensures AckCorrelated(old(requests), tag, ra, requests, cor)
    {
      var matches: seq<nat> := [];
      for i := 0 to |requests|
        invariant requests == old(requests)
        invariant forall m :: m in matches <==> 0 <= m < i && AckMatches(requests[m], tag, ra)
        invariant Increasing(matches)
      {
        var rs := requests[i];
        if !Complete(rs) && (if ra.kind == Done then rs.ack == AckSuccessMore else rs.ack in {AckWait, AckWaitMore})
          && rs.analysis.ackTag == tag && rs.analysis.ackCorrelate == ra.ackCorrelate {
          IncreasingAppend(matches, i);
          matches := matches + [i];
        }
      }
      assert AckCandidates(requests, tag, ra) == Elements(matches);
      IncreasingCount(matches);
      if |matches| != 1 {
        return Unattributed(if |matches| > 1 then AmbigResponse else NotResponse);
      }
      var i := matches[0];
      var rs := requests[i];
      match ra.kind {
        case Ack =>
          rs := rs.(ack := AckSuccess);
          var rel := AckOnly;
          if rs.analysis.expectData == DataWithAck {
            rs, rel := rs.(data := DataReceived), SoleResponse;
          }
          cor := Correlation(IsAck, "", Some(i), rel);
        case Nak =>
          rs := rs.(ack := AckFailed, ackError := ra.ackError, data := DataNotExpected);
          cor := Correlation(IsNak, ra.ackError, Some(i), AckOnly);
        case Wait =>
          rs := rs.(ack := AckWaitMore);
          cor := Correlation(OtherAck, "", Some(i), AckOnly);
        case AckMore =>
          rs := rs.(ack := AckSuccessMore);
          cor := Correlation(IsAck, "", Some(i), MaybeResponse);
        case Done =>
          rs := rs.(ack := AckSuccess, data := DataReceived);
          cor := Unattributed(SoleResponse);
      }
      requests := requests[i := rs];
    }

    method CorrelateData(tag: string, data: string, unclaimedAck: bool) returns (cor: Correlation)
      modifies this
      ensures DataCorrelated(old(requests), tag, data, unclaimedAck, requests, cor)
    {
      var matches: seq<nat> := [];
      for i := 0 to |requests|
        invariant requests == old(requests)
        invariant forall m :: m in matches <==> 0 <= m < i && DataMatches(requests[m], tag, data, unclaimedAck)
        invariant Increasing(matches)
      {
        var rs := requests[i];
        var a := rs.analysis;
        if (unclaimedAck && a.expectAck != ExpectAckNone) || a.expectData == DataWithAck {
          continue;
        }
        if rs.data != DataWait && !(rs.data == DataReceived && a.expectData == DataMultiple) {
          continue;
        }
        if (a.dataTag != "" && a.dataTag != tag) || (a.dataMatch.Some? && !a.dataMatch.value(data)) {
          continue;
        }
        IncreasingAppend(matches, i);
        matches := matches + [i];
      }
      assert DataCandidates(requests, tag, data, unclaimedAck) == Elements(matches);
      IncreasingCount(matches);
      if |matches| != 1 {
        return Unattributed(if |matches| > 1 then AmbigResponse else NotResponse);
      }
      var i := matches[0];
      var rs := requests[i];
      match rs.analysis.expectData {
        case DataSingle =>
          requests := requests[i := rs.(data := DataReceived)];
          cor := Unattributed(SoleResponse);
        case DataMultiple =>
          requests := requests[i := rs.(data := DataReceived)];
          cor := Unattributed(MultiResponse);
        case DataAmbig =>
          cor := Unattributed(MaybeResponse);
        case DataUnknown =>
          cor := Unattributed(MaybeResponse);
        case _ =>
          cor := Unattributed(NotResponse);
      }
    }

    method CorrelatePacket(tag: string, data: string) returns (cor: Correlation)
      modifies this
      ensures Correlated(old(requests), tag, data, Classify(analyzers, tag, data), requests, cor)
    {
      var ra := if tag in analyzers then analyzers[tag](data) else ResponseAnalysis(MaybeData, "", "");
      if ra.kind in {Ack, Nak, Wait, AckMore, Done} {
        cor := CorrelateAck(tag, ra);
        if cor.relevance == NotResponse {
          cor := CorrelateData(tag, data, true);
        }
      } else if ra.kind in {Data, MaybeData} {
        cor := CorrelateData(tag, data, false);
      } else {
        cor := Unattributed(if ra.kind == Info then MaybeResponse else NotResponse);
      }
    }

    method CanAcceptMore() returns (more: bool)
      ensures more <==> exists i :: 0 <= i < |requests| && !Complete(requests[i])
    {
      for i := 0 to |requests|
        invariant forall j :: 0 <= j < i ==> Complete(requests[j])
      {
        if !Complete(requests[i]) {
          return true;
        }
      }
      return false;
    }

    /** The requests that still lack an acknowledgement, or data, that they can count on. */
    method Missing() returns (missingAck: seq<nat>, missingData: seq<nat>)
      ensures forall i :: i in missingAck <==> 0 <= i < |requests| && LacksAck(requests[i])
      ensures forall i :: i in missingData <==> 0 <= i < |requests| && LacksData(requests[i])
      ensures Increasing(missingAck) && Increasing(missingData)
    {
      missingAck, missingData := [], [];
      for i := 0 to |requests|
        invariant forall j :: j in missingAck <==> 0 <= j < i && LacksAck(requests[j])
        invariant forall j :: j in missingData <==> 0 <= j < i && LacksData(requests[j])
        invariant Increasing(missingAck) && Increasing(missingData)
      {
        var rs := requests[i];
        if rs.analysis.expectAck == ExpectAckOrNak && (rs.ack == AckWait || rs.ack == AckWaitMore) {
          IncreasingAppend(missingAck, i);
          missingAck := missingAck + [i];
        }
        if rs.ack == AckFailed {
          continue;
        }
        if rs.analysis.expectData in {DataSingle, DataWithAck, DataMultiple} && rs.data == DataWait {
          IncreasingAppend(missingData, i);
          missingData := missingData + [i];
        }
      }
    }
  }

  predicate LacksAck(rs: RequestState) {
    rs.analysis.expectAck == ExpectAckOrNak && rs.ack in {AckWait, AckWaitMore}
  }

  predicate LacksData(rs: RequestState) {
    rs.ack != AckFailed && rs.analysis.expectData in {DataSingle, DataWithAck, DataMultiple} && rs.data == DataWait
  }

  predicate Increasing(s: seq<nat>) {
    forall i, j :: 0 <= i < j < |s| ==> s[i] < s[j]
  }

  lemma IncreasingAppend(s: seq<nat>, x: nat)
    requires Increasing(s) && forall m :: m in s ==> m < x
    ensures Increasing(s + [x])
  {
    assert forall i :: 0 <= i < |s| ==> s[i] in s;
  }

  lemma {:induction false} IncreasingCount(s: seq<nat>)
    requires Increasing(s)
    ensures |Elements(s)| == |s|
  {
    if s != [] {
      var t, last := s[..|s| - 1], s[|s| - 1];
      IncreasingCount(t);
      assert forall x :: x in Elements(s) <==> x in Elements(t) || x == last;
      assert Elements(s) == Elements(t) + {last};
      assert last !in t;
    }
  }
}
