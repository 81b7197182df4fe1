/** Septentrio replies (gps/msgfile/sept.go) and what they do to the correlator: the receiver's single-flight
    protocol, with any other traffic in between. */
module Septentrio {
  import opened Options
  import opened Correlation
  import opened CorrelationRuns

  const REPLY_TAG := "SEPTR"

  /** One key for every command: replies carry no echo of the command they answer. */
  const KEY := "cmd"

  const CONTINUES := "---->"

  /** What every Septentrio command expects: one acknowledgement, which carries the reply. */
  const COMMAND := RequestAnalysis(REPLY_TAG, KEY, ExpectAckOrNak, DataWithAck, "", None)

  predicate HasSuffix(s: string, p: string) {
    |p| <= |s| && s[|s| - |p|..] == p
  }

  function Analyze(pkt: string): ResponseAnalysis {
    if |pkt| < 3 || pkt[0] != '$' then ResponseAnalysis(NotData, "", "")
    else if pkt[1] == 'R' then
      match pkt[2]
      case ':' | '!' => ResponseAnalysis(Ack, KEY, "")
      case ';' => ResponseAnalysis(if !HasSuffix(pkt, CONTINUES) then Ack else AckMore, KEY, "")
      case '?' => ResponseAnalysis(Nak, KEY, NakError(pkt))
      case _ => ResponseAnalysis(NotData, "", "")
    else if pkt[1] == '-' && pkt[2] == '-' then
      if HasSuffix(pkt, CONTINUES) then ResponseAnalysis(Info, "", "") else ResponseAnalysis(Done, KEY, "")
    else ResponseAnalysis(NotData, "", "")
  }

  predicate IsBreak(s: string, i: nat) {
    i + 2 <= |s| && s[i] == '\r' && s[i + 1] == '\n'
  }

  /** The position of the last line break, if there is one. */
  function LastBreak(s: string): (r: Option<nat>)
    ensures r.Some? ==> IsBreak(s, r.value)
    ensures forall i: nat :: IsBreak(s, i) ==> r.Some? && i <= r.value
  {
    if |s| < 2 then None
    else if IsBreak(s, |s| - 2) then Some(|s| - 2)
    else
      assert forall i: nat :: IsBreak(s, i) ==> IsBreak(s[..|s| - 1], i);
      LastBreak(s[..|s| - 1])
  }

  /** White space as Unicode has it. */
  predicate IsSpace(c: char) {
    || '\t' <= c <= '\r' || '\U{2000}' <= c <= '\U{200A}'
    || c in {' ', '\U{85}', '\U{A0}', '\U{1680}', '\U{2028}', '\U{2029}', '\U{202F}', '\U{205F}', '\U{3000}'}
  }

  function TrimSpace(s: string): string {
    if s == [] then s
    else if IsSpace(s[0]) then TrimSpace(s[1..])
    else if IsSpace(s[|s| - 1]) then TrimSpace(s[..|s| - 1])
    else s
  }

  function NakError(pkt: string): string
    requires "$R?" <= pkt
  {
    var end := match LastBreak(pkt) case Some(i) => i case None => |pkt|;
    assert end >= 3 by {
      assert pkt[..3] == [pkt[0], pkt[1], pkt[2]];
    }
    TrimSpace(pkt[3..end])
  }

  // ---- The reply grammar (mosaic reference guide, section 3.1.3) ----

  /** A whole positive reply in one packet. */
  predicate IsSimple(p: string) {
    "$R:" <= p || "$R!" <= p || ("$R;" <= p && !HasSuffix(p, CONTINUES))
  }

  predicate IsRejection(p: string) {
    "$R?" <= p
  }

  /** The first packet of a list reply that has blocks. */
  predicate IsListHead(p: string) {
    "$R;" <= p && HasSuffix(p, CONTINUES)
  }

  predicate IsMiddleBlock(p: string) {
    "$--" <= p && HasSuffix(p, CONTINUES)
  }

  predicate IsLastBlock(p: string) {
    "$--" <= p && !HasSuffix(p, CONTINUES)
  }

  /** Where the exchange with the receiver stands; the number is the request being answered. */
  datatype Phase = Idle | Awaited(request: nat) | Listing(request: nat)

  /** The receiver answers the last command, by a simple reply, a rejection, or a list head, any number of middle
      blocks and a last block. Packets with other tags and requests for other tags come at any time, and so may
      commands, as far as the receiver is concerned. `n` is the number of requests so far. */
  ghost function NextPhase(phase: Phase, e: Event, n: nat): Option<Phase> {
    match e
    case Sent(a) =>
      if a == COMMAND then Some(Awaited(n))
      else if a.ackTag != REPLY_TAG then Some(phase)
      else None
    case Received(tag, p) =>
      if tag != REPLY_TAG then Some(phase)
      else if phase.Awaited? && (IsSimple(p) || IsRejection(p)) then Some(Idle)
      else if phase.Awaited? && IsListHead(p) then Some(Listing(phase.request))
      else if phase.Listing? && IsMiddleBlock(p) then Some(phase)
      else if phase.Listing? && IsLastBlock(p) then Some(Idle)
      else None
  }

  /** A run in which messages are sent only when ReadyToSend allows, and the receiver keeps to its protocol. */
  ghost predicate Follows(analyzers: Analyzers, es: seq<Event>, states: seq<seq<RequestState>>,
    cors: seq<Correlation>, phases: seq<Phase>)
  {
    && Run(analyzers, es, states, cors) && Paced(es, states)
    && REPLY_TAG in analyzers && (forall p :: analyzers[REPLY_TAG](p) == Analyze(p))
    && |phases| == |states| && phases[0] == Idle
    && forall k :: 0 <= k < |es| ==> NextPhase(phases[k], es[k], |states[k]|) == Some(phases[k + 1])
  }

  /** Whether the request at `i` is still being answered. */
  predicate Open(phase: Phase, i: nat) {
    phase != Idle && phase.request == i
  }

  /** What the phase says about every request. */
  ghost predicate Tracks(rs: seq<RequestState>, phase: Phase) {
    && (phase != Idle ==> phase.request < |rs| && rs[phase.request].analysis == COMMAND)
    && forall i :: 0 <= i < |rs| ==> Tracked(rs[i], phase, i)
  }

  ghost predicate Tracked(rs: RequestState, phase: Phase, i: nat) {
    if rs.analysis != COMMAND then rs.analysis.ackTag != REPLY_TAG
    else if phase == Awaited(i) then rs.ack == AckWait && rs.data == DataWait
    else if phase == Listing(i) then rs.ack == AckSuccessMore && rs.data == DataWait
    else (rs.ack == AckSuccess && rs.data == DataReceived) || (rs.ack == AckFailed && rs.data == DataNotExpected)
  }

  /** What is reported of a reply packet while request `i` is being answered. */
  function ReplyReport(p: string, i: nat): Correlation {
    if "$R?" <= p then Correlation(IsNak, NakError(p), Some(i), AckOnly)
    else if "$--" <= p then Unattributed(if HasSuffix(p, CONTINUES) then MaybeResponse else SoleResponse)
    else Correlation(IsAck, "", Some(i), if IsListHead(p) then MaybeResponse else SoleResponse)
  }

  /** The classifier follows the grammar. */
  lemma GrammarClassified(p: string)
    ensures IsSimple(p) ==> Analyze(p) == ResponseAnalysis(Ack, KEY, "")
    ensures IsListHead(p) ==> Analyze(p) == ResponseAnalysis(AckMore, KEY, "")
    ensures IsMiddleBlock(p) ==> Analyze(p) == ResponseAnalysis(Info, "", "")
    ensures IsLastBlock(p) ==> Analyze(p) == ResponseAnalysis(Done, KEY, "")
    ensures IsRejection(p) ==> Analyze(p) == ResponseAnalysis(Nak, KEY, NakError(p))
    ensures Analyze(p).kind == NotData <==>
      !IsSimple(p) && !IsListHead(p) && !IsMiddleBlock(p) && !IsLastBlock(p) && !IsRejection(p)
  {
    if |p| >= 3 {
      assert p[..3] == [p[0], p[1], p[2]];
    }
  }

  /** One reply packet moves the request being answered on and touches no other. */
  lemma ReplyStep(analyzers: Analyzers, a: seq<RequestState>, p: string, b: seq<RequestState>, cor: Correlation,
    phase: Phase, next: Phase)
    requires Step(analyzers, a, Received(REPLY_TAG, p), b, cor)
    requires REPLY_TAG in analyzers && analyzers[REPLY_TAG](p) == Analyze(p)
    requires Tracks(a, phase) && NextPhase(phase, Received(REPLY_TAG, p), |a|) == Some(next)
    ensures Tracks(b, next)
    ensures cor == ReplyReport(p, phase.request)
    ensures b == a || b == a[phase.request := b[phase.request]]
  {
    hide Analyze, HasSuffix, AckEffect, AckReport, ReplyReport, Tracked, DataCorrelated;
    var i := phase.request;
    var ra := Analyze(p);
    GrammarClassified(p);
    ReplyEffect(a[i], i, p, phase, next, |a|);
    if ra.kind != Info {
      ReplyMatches(a, phase, ra);
      assert b == a[i := AckEffect(a[i], ra)] && cor == AckReport(i, a[i], ra);
      forall j: nat | j < |b| ensures Tracked(b[j], next, j) {
        if j != i {
          OtherTracked(a[j], phase, next, j);
        }
      }
    }
  }

  /** What a reply packet does to the request being answered. */
  lemma ReplyEffect(rs: RequestState, i: nat, p: string, phase: Phase, next: Phase, n: nat)
    requires Tracked(rs, phase, i) && rs.analysis == COMMAND && phase != Idle && phase.request == i
    requires NextPhase(phase, Received(REPLY_TAG, p), n) == Some(next)
    ensures Analyze(p).kind == Info ==> next == phase && ReplyReport(p, i) == Unattributed(MaybeResponse)
    ensures Analyze(p).kind != Info ==>
      Tracked(AckEffect(rs, Analyze(p)), next, i) && AckReport(i, rs, Analyze(p)) == ReplyReport(p, i)
    ensures AckEffect(rs, Analyze(p)).analysis == COMMAND
  {
    GrammarClassified(p);
    hide Analyze, HasSuffix;
  }

  lemma OtherTracked(rs: RequestState, phase: Phase, next: Phase, j: nat)
    requires Tracked(rs, phase, j) && phase != Idle && phase.request != j
    requires next == Idle || next.request == phase.request
    ensures Tracked(rs, next, j)
  {
  }

  /** An acknowledging reply packet fits the request being answered and no other. */
  lemma ReplyMatches(a: seq<RequestState>, phase: Phase, ra: ResponseAnalysis)
    requires Tracks(a, phase) && phase != Idle && ra.ackCorrelate == KEY && IsAckKind(ra.kind)
    requires ra.kind == Done <==> phase.Listing?
    ensures AckCandidates(a, REPLY_TAG, ra) == {phase.request}
  {
    var i := phase.request;
    assert Tracked(a[i], phase, i);
    assert AckMatches(a[i], REPLY_TAG, ra);
    forall j: nat | j < |a| && AckMatches(a[j], REPLY_TAG, ra) ensures j == i {
      assert Tracked(a[j], phase, j);
    }
  }

  /** Other traffic leaves the commands alone. */
  lemma OtherPacketStep(analyzers: Analyzers, a: seq<RequestState>, tag: string, data: string, b: seq<RequestState>,
    cor: Correlation, phase: Phase)
    requires Step(analyzers, a, Received(tag, data), b, cor) && tag != REPLY_TAG && Tracks(a, phase)
    ensures Tracks(b, phase)
  {
    PacketChangesOne(analyzers, a, tag, data, b, cor);
    OtherPacketEffect(analyzers, a, tag, data, b, cor);
    forall i | 0 <= i < |b| ensures Tracked(b[i], phase, i) {
      AdvanceKeeps(a[i], b[i]);
      assert Tracked(a[i], phase, i);
    }
  }

  lemma OtherPacketEffect(analyzers: Analyzers, a: seq<RequestState>, tag: string, data: string,
    b: seq<RequestState>, cor: Correlation)
    requires Step(analyzers, a, Received(tag, data), b, cor) && tag != REPLY_TAG
    ensures |b| == |a| && forall i :: 0 <= i < |a| && a[i].analysis == COMMAND ==> b[i] == a[i]
  {
    var ra := Classify(analyzers, tag, data);
    if b != a {
      if IsAckKind(ra.kind) && AckCandidates(a, tag, ra) != {} {
        var i :| i in AckCandidates(a, tag, ra) && b == a[i := AckEffect(a[i], ra)];
        assert AckMatches(a[i], tag, ra);
      } else {
        var unclaimed := IsAckKind(ra.kind);
        var i :| i in DataCandidates(a, tag, data, unclaimed) && b == a[i := DataEffect(a[i])];
        assert DataMatches(a[i], tag, data, unclaimed);
      }
    }
  }

  lemma {:induction false} PhasesTrack(analyzers: Analyzers, es: seq<Event>, states: seq<seq<RequestState>>,
    cors: seq<Correlation>, phases: seq<Phase>, k: nat)
    requires Follows(analyzers, es, states, cors, phases) && k <= |es|
    ensures Tracks(states[k], phases[k])
  {
    hide Tracks, Step, NextPhase, Run, Paced, Analyze;
    if k == 0 {
      NothingSent(analyzers, es, states, cors, phases);
    } else {
      PhasesTrack(analyzers, es, states, cors, phases, k - 1);
      EventTracked(analyzers, es, states, cors, phases, k - 1);
    }
  }

  lemma NothingSent(analyzers: Analyzers, es: seq<Event>, states: seq<seq<RequestState>>, cors: seq<Correlation>,
    phases: seq<Phase>)
    requires Follows(analyzers, es, states, cors, phases)
    ensures Tracks(states[0], phases[0])
  {
  }

  lemma EventTracked(analyzers: Analyzers, es: seq<Event>, states: seq<seq<RequestState>>, cors: seq<Correlation>,
    phases: seq<Phase>, k: nat)
    requires Follows(analyzers, es, states, cors, phases) && k < |es| && Tracks(states[k], phases[k])
    ensures Tracks(states[k + 1], phases[k + 1])
    ensures es[k].Received? && es[k].tag == REPLY_TAG ==>
      phases[k] != Idle && cors[k] == ReplyReport(es[k].data, phases[k].request)
  {
    hide Tracks, Step, NextPhase, ReplyReport, Paced, Analyze;
    SentWhenIdle(es, states, phases, k);
    TrackStep(analyzers, states[k], es[k], states[k + 1], cors[k], phases[k], phases[k + 1]);
  }

  /** A command may be sent exactly when none is being answered. */
  lemma ReadyWhenIdle(rs: seq<RequestState>, phase: Phase)
    requires Tracks(rs, phase)
    ensures ReadyFor(rs, COMMAND) <==> phase == Idle
  {
    if phase != Idle {
      assert Tracked(rs[phase.request], phase, phase.request);
      assert Awaits(rs[phase.request], REPLY_TAG, KEY);
    } else {
      forall i | 0 <= i < |rs| ensures !Awaits(rs[i], REPLY_TAG, KEY) {
        assert Tracked(rs[i], phase, i);
      }
    }
  }

  /** Pacing keeps the protocol single-flight. */
  lemma SentWhenIdle(es: seq<Event>, states: seq<seq<RequestState>>, phases: seq<Phase>, k: nat)
    requires |states| > |es| && |phases| == |states| && Paced(es, states) && k < |es| && Tracks(states[k], phases[k])
    ensures es[k] == Sent(COMMAND) ==> phases[k] == Idle
  {
    ReadyWhenIdle(states[k], phases[k]);
  }

  lemma TrackStep(analyzers: Analyzers, a: seq<RequestState>, e: Event, b: seq<RequestState>, cor: Correlation,
    phase: Phase, next: Phase)
    requires Step(analyzers, a, e, b, cor)
    requires REPLY_TAG in analyzers && forall p :: analyzers[REPLY_TAG](p) == Analyze(p)
    requires Tracks(a, phase) && NextPhase(phase, e, |a|) == Some(next)
    requires e == Sent(COMMAND) ==> phase == Idle
    ensures Tracks(b, next)
    ensures e.Received? && e.tag == REPLY_TAG ==> phase != Idle && cor == ReplyReport(e.data, phase.request)
  {
    match e
    case Sent(analysis) =>
      forall i | 0 <= i < |b| ensures Tracked(b[i], next, i) {
        assert i < |a| ==> Tracked(a[i], phase, i);
      }
    case Received(tag, data) =>
      if tag == REPLY_TAG {
        ReplyStep(analyzers, a, data, b, cor, phase, next);
      } else {
        OtherPacketStep(analyzers, a, tag, data, b, cor, phase);
      }
  }

  /** In every reachable state of a paced run each command is complete exactly when its last packet has come, it has
      been reported accepted or rejected exactly once from its first packet on, and a new command may be sent exactly
      when none is being answered. */
  lemma CommandsServed(analyzers: Analyzers, es: seq<Event>, states: seq<seq<RequestState>>, cors: seq<Correlation>,
    phases: seq<Phase>, k: nat)
    requires Follows(analyzers, es, states, cors, phases) && k <= |es|
    ensures forall i: nat :: i < |states[k]| && states[k][i].analysis == COMMAND ==>
      && (Complete(states[k][i]) <==> !Open(phases[k], i))
      && Reports(cors[..k], i) == (if phases[k] == Awaited(i) then 0 else 1)
    ensures ReadyFor(states[k], COMMAND) <==> phases[k] == Idle
  {
    PhasesTrack(analyzers, es, states, cors, phases, k);
    ReportedOnce(analyzers, es, states, cors, k);
    ReadyWhenIdle(states[k], phases[k]);
    forall i: nat | i < |states[k]| ensures Tracked(states[k][i], phases[k], i) {
    }
  }

  /** Every reply packet is attributed to the command it answers, a rejection with its error text. */
  lemma ReplyAttributed(analyzers: Analyzers, es: seq<Event>, states: seq<seq<RequestState>>, cors: seq<Correlation>,
    phases: seq<Phase>, k: nat)
    requires Follows(analyzers, es, states, cors, phases) && k < |es|
    requires es[k].Received? && es[k].tag == REPLY_TAG
    ensures phases[k] != Idle && cors[k] == ReplyReport(es[k].data, phases[k].request)
  {
    PhasesTrack(analyzers, es, states, cors, phases, k);
    EventTracked(analyzers, es, states, cors, phases, k);
  }

  /** A rejection's error is the text between the prefix and the prompt, without the white space around it. */
  lemma NakErrorIs(before: string, text: string, after: string, prompt: string)
    requires forall c :: c in before + after ==> IsSpace(c)
    requires text != "" && !IsSpace(text[0]) && !IsSpace(text[|text| - 1])
    requires forall i: nat :: !IsBreak("\n" + prompt, i)
    ensures "$R?" <= "$R?" + before + text + after + "\r\n" + prompt
    ensures NakError("$R?" + before + text + after + "\r\n" + prompt) == text
  {
    var body := "$R?" + before + text + after;
    var pkt := body + "\r\n" + prompt;
    assert pkt == "$R?" + (before + text + after + "\r\n" + prompt);
    assert IsBreak(pkt, |body|);
    forall i: nat | i > |body| && IsBreak(pkt, i) ensures IsBreak("\n" + prompt, i - |body| - 1) {
    }
    assert LastBreak(pkt) == Some(|body|);
    assert pkt[3..|body|] == before + text + after;
    TrimSurrounded(before, text, after);
  }

  lemma {:induction false} TrimSurrounded(before: string, text: string, after: string)
    requires forall c :: c in before + after ==> IsSpace(c)
    requires text != "" && !IsSpace(text[0]) && !IsSpace(text[|text| - 1])
    ensures TrimSpace(before + text + after) == text
    decreases |before| + |after|
  {
    var s := before + text + after;
    if before != "" {
      assert s[0] == before[0] && before[0] in before + after;
      assert s[1..] == before[1..] + text + after;
      forall c | c in before[1..] + after ensures IsSpace(c) {
        assert c in before + after;
      }
      TrimSurrounded(before[1..], text, after);
    } else if after != "" {
      assert s[0] == text[0];
      assert s[|s| - 1] == after[|after| - 1] && after[|after| - 1] in before + after;
      assert s[..|s| - 1] == before + text + after[..|after| - 1];
      forall c | c in before + after[..|after| - 1] ensures IsSpace(c) {
        assert c in before + after;
      }
      TrimSurrounded(before, text, after[..|after| - 1]);
    } else {
      assert s == text;
    }
  }
}
