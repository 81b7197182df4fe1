/** The packet scanner of gps/scan/scan.go. */
module Scan {
  import opened Options
  import opened PacketFormats
  import opened Segmentation
  import opened ScanSteps

  const MIN_INVALID_PACKET_LEN := 32

  /** A timeout in the middle of a packet is reported as an error of its own. */
  datatype ReadError = NoError | Timeout | TimeoutInPacket | Temporary | EOF | Fatal(code: int)

  /** What the reader has in store: some bytes, and the error the read that takes the last of them returns. */
  datatype Event = Event(chunk: seq<byte>, err: ReadError)

  datatype Packet = Packet(fmt: Option<nat>, readError: ReadError, data: seq<byte>, checksumValid: bool) {
    predicate IsInterPacketTimeout() {
      fmt == None && data == [] && readError == Timeout
    }
  }

  /** What the next byte does to the packet so far: it is taken by format `fmt`, or as invalid data when the state
      is sync; it sends the scanner back to try another format on the first byte; it could start a packet, so the
      invalid data before it must go first; or no format is left for the first byte. */
  datatype Decision =
    | Accept(fmt: nat, state: ScanState)
    | Switch(fmt: nat, state: ScanState)
    | PacketStart
    | NoFormat

  /** Why the scanning loop stops: format `fmt` has a whole packet, there are invalid bytes to return, or the
      reader reported an error. */
  datatype Finding = Whole(fmt: nat, ok: bool) | Invalid | Interrupted(err: ReadError, inCandidate: bool)

  datatype Step =
    | More(state: ScanState, cur: nat, packetLen: nat, rescanned: bool)
    | Stop(finding: Finding, packetLen: nat)

  /** A step of the scan that goes on: either it moves forward, or it goes back to try a later format, or it gives up
      the candidate or the packet for invalid data, once. */
  predicate Progress(formats: nat, size: nat, state: ScanState, cur: nat, packetLen: nat, step: Step)
    requires step.More?
  {
    && step.packetLen <= size && (step.state != SYNC ==> step.cur < formats)
    && (step.rescanned ==> step.state == SYNC && (state != SYNC || packetLen == 0))
    && (step.state == SYNC && state != SYNC ==> step.rescanned)
    && if step.state == SYNC then step.packetLen > 0 && (state == SYNC && packetLen > 0 ==> step.packetLen > packetLen)
       else if state == SYNC then packetLen == 0
       else cur < step.cur || (cur == step.cur && step.packetLen > packetLen)
  }

  function Rest(events: seq<Event>): seq<byte> {
    if events == [] then [] else events[0].chunk + Rest(events[1..])
  }

  /** One read of at most `room` bytes: the bytes, the error, and what is left. A reader that has delivered
      everything reports end of file for ever. */
  function Deliver(events: seq<Event>, room: nat): (r: (seq<byte>, ReadError, seq<Event>))
    ensures |r.0| <= room
    ensures Rest(events) == r.0 + Rest(r.2)
    ensures |r.2| <= |events|
    ensures r.1 == NoError && r.0 == [] && room > 0 ==> |r.2| < |events|
    ensures r.1 != NoError && events != [] ==> |r.2| < |events|
    ensures events == [] ==> r == ([], EOF, [])
  {
    if events == [] then ([], EOF, [])
    else if |events[0].chunk| <= room then (events[0].chunk, events[0].err, events[1..])
    else
      var e := events[0];
      assert e.chunk == e.chunk[..room] + e.chunk[room..];
      var left := [Event(e.chunk[room..], e.err)] + events[1..];
      assert left[0].chunk == e.chunk[room..] && left[1..] == events[1..];
      (e.chunk[..room], NoError, left)
  }

  /** A buffer of no size never receives the bytes that are there. */
  lemma NoRoomNoProgress(events: seq<Event>)
    requires events != [] && events[0].chunk != []
    ensures Deliver(events, 0) == ([], NoError, events)
  {
    assert [Event(events[0].chunk[0..], events[0].err)] + events[1..] == events;
  }

  /** Only the last event may carry an error, and that error ends the stream. */
  predicate EndsCleanly(events: seq<Event>) {
    if |events| <= 1 then events == [] || !(events[0].err in {Timeout, Temporary})
    else events[0].err == NoError && EndsCleanly(events[1..])
  }

  /** The bytes that arrive together with the error that ends the stream. */
  function EndBytes(events: seq<Event>): seq<byte> {
    if events == [] then []
    else if |events| > 1 then EndBytes(events[1..])
    else if events[0].err == NoError then []
    else events[0].chunk
  }

  /** Reads that took the reader from `before` to `after` and ended with `err` yielded the bytes `got`. */
  ghost predicate ReadsTo(before: seq<Event>, after: seq<Event>, got: seq<byte>, err: ReadError) {
    && Rest(before) == got + Rest(after)
    && |after| <= |before|
    && (err == Timeout || err == Temporary ==> |after| < |before|)
    && (EndsCleanly(before) ==> StillClean(before, after, got, err))
  }

  ghost predicate StillClean(before: seq<Event>, after: seq<Event>, got: seq<byte>, err: ReadError) {
    && EndsCleanly(after)
    && err != Timeout && err != Temporary
    && if err == NoError then EndBytes(after) == [] <==> EndBytes(before) == []
       else Rest(after) == [] && (got == [] <==> EndBytes(before) == [])
  }

  ghost predicate Consumed(before: seq<Event>, after: seq<Event>) {
    && |after| <= |before|
    && (EndsCleanly(before) ==> EndsCleanly(after) && (EndBytes(after) == [] <==> EndBytes(before) == []))
  }

  ghost predicate ReaderMoved(before: seq<Event>, after: seq<Event>, unscanned: seq<byte>, f: Finding) {
    && |after| <= |before|
    && (f.Interrupted? && f.err in {Timeout, Temporary} ==> |after| < |before|)
    && (EndsCleanly(before) ==>
        && EndsCleanly(after)
        && (!f.Interrupted? ==> (EndBytes(after) == [] <==> EndBytes(before) == []))
        && (f.Interrupted? ==>
            && !(f.err in {Timeout, Temporary})
            && Rest(after) == [] && (unscanned == [] <==> EndBytes(before) == [])))
  }

  lemma NothingConsumed(events: seq<Event>)
    ensures Consumed(events, events)
  {
  }

  lemma ConsumedOn(a: seq<Event>, b: seq<Event>, c: seq<Event>)
    requires Consumed(a, b) && Consumed(b, c)
    ensures Consumed(a, c)
  {
  }

  lemma ReadConsumed(a: seq<Event>, b: seq<Event>, got: seq<byte>)
    requires ReadsTo(a, b, got, NoError)
    ensures Consumed(a, b)
  {
  }

  lemma ReadMoves(a: seq<Event>, b: seq<Event>, got: seq<byte>, f: Finding)
    requires f.Interrupted? && f.err != NoError && ReadsTo(a, b, got, f.err)
    ensures ReaderMoved(a, b, got, f)
  {
  }

  lemma MovedOn(a: seq<Event>, b: seq<Event>, c: seq<Event>, unscanned: seq<byte>, f: Finding)
    requires Consumed(a, b) && ReaderMoved(b, c, unscanned, f)
    ensures ReaderMoved(a, c, unscanned, f)
  {
  }

  lemma ConsumedMoves(a: seq<Event>, b: seq<Event>, unscanned: seq<byte>, f: Finding)
    requires Consumed(a, b) && !f.Interrupted?
    ensures ReaderMoved(a, b, unscanned, f)
  {
  }

  lemma NothingRead(events: seq<Event>, got: seq<byte>)
    requires got == []
    ensures ReadsTo(events, events, got, NoError)
  {
  }

  lemma DeliverReadsTo(before: seq<Event>, mid: seq<Event>, nothing: seq<byte>, room: nat)
    requires nothing == [] && ReadsTo(before, mid, nothing, NoError) && room > 0
    ensures var (chunk, err, left) := Deliver(mid, room); ReadsTo(before, left, chunk, err)
  {
  }

  function TokensOf(p: Packet): seq<Token> {
    match p.fmt
    case None => JunkOf(p.data)
    case Some(j) => [Recognised(j, p.data, p.checksumValid)]
  }

  /** What one call of Scan does with the stream `s` of a reader that ends cleanly. Either `p` is the next piece of
      its segmentation and `rest` remains; or the reader has ended, `p` is what was left of the stream, and the
      only bytes still in the buffer are those that came with the end. */
  ghost predicate NextPiece(fs: seq<Format>, prev: bool, s: seq<byte>, p: Packet, err: ReadError, rest: seq<byte>,
    endBytes: seq<byte>, endBytes': seq<byte>, unread: seq<byte>)
  {
    if err == NoError then
      && Tokens(fs, prev, s) == TokensOf(p) + Tokens(fs, p.checksumValid, rest)
      && (endBytes' == [] <==> endBytes == [])
    else
      && p.fmt.None? && unread == []
      && (rest == [] <==> endBytes == [])
      && (rest == [] ==> Tokens(fs, prev, s) == TokensOf(p))
  }

  /** The first `k` bytes are returned as invalid because there are 32 of them, or a packet could start after them, or
      no format takes the candidate they begin, whose next possible start is after them. */
  ghost predicate RunEnds(fs: seq<Format>, s: seq<byte>, k: nat) {
    && 0 < k <= |s|
    && (|| k >= 32
        || (k < |s| && Starts(fs, s[k]))
        || (Starts(fs, s[0]) && Candidate(fs, s).Failed? && k == Restart(fs, s, 1, Candidate(fs, s).n)))
  }

  lemma LongRunEnds(fs: seq<Format>, s: seq<byte>, k: nat)
    requires 32 <= k <= |s|
    ensures RunEnds(fs, s, k)
  {
  }

  /** Why a finding about the first `k` bytes of the stream `s` is right. */
  ghost predicate Justified(fs: seq<Format>, prev: bool, s: seq<byte>, f: Finding, k: nat) {
    match f
    case Whole(j, ok) => k > 0 && IsPacket(fs, prev, s, j, ok, k)
    case Invalid => Skipped(fs, prev, s, k) && RunEnds(fs, s, k)
    case Interrupted(err, inCandidate) =>
      && err != NoError && k <= |s|
      && (if inCandidate then k > 0 else k < 32 && Skipped(fs, prev, s, k))
      && (inCandidate <==> Open(fs, s[..k]))
      && (|s| == k ==> Tokens(fs, prev, s) == JunkOf(s))
  }

  /** What becomes of a finding about the first `n` bytes of `s`: the first `k` are returned, with these errors. A read
      that failed brought the bytes `got`. */
  ghost predicate Settled(fs: seq<Format>, s: seq<byte>, f: Finding, n: nat, got: seq<byte>, k: nat,
    readError: ReadError, err: ReadError)
  {
    && n <= |s|
    && if !f.Interrupted? then k == n && err == readError == NoError
       else match f.err
         case Timeout => err == NoError &&
           if f.inCandidate && n > 0 then
             k == Restart(fs, s, 1, n) && readError == if k == n then TimeoutInPacket else NoError
           else k == n && readError == TimeoutOutside(n, got)
         case Temporary => k == n && err == NoError && readError == Temporary
         case e => k == n && err == e && readError == NoError
  }

  /** How a timeout is reported outside a candidate, after `n` bytes of invalid data, by a read that brought `got`. */
  function TimeoutOutside(n: nat, got: seq<byte>): ReadError {
    if n > 0 then NoError else if got == [] then Timeout else TimeoutInPacket
  }

  /** Why a call of Scan on the stream `s` returned `p` and `err`, given how many reads failed, the bytes and the error
      of the last read if it failed, and what the reader has left. Without a failed read, `p` is a packet or the end of
      an invalid run. Else the `n` bytes before those of that read had been scanned. A timeout is an error between
      packets, and within a candidate that hides no possible start; one in invalid data is none, nor is one that
      ends a candidate just before a possible start. Other errors are always reported. */
  ghost predicate Returned(fs: seq<Format>, s: seq<byte>, p: Packet, err: ReadError, failures: int,
    got: seq<byte>, readErr: ReadError, after: seq<Event>)
  {
    var n := |s| - |got| - |Rest(after)|;
    if failures == 0 then
      err == p.readError == NoError && (p.fmt.None? ==> RunEnds(fs, s, |p.data|))
    else
      && failures == 1 && p.fmt.None? && 0 <= n <= |s| && s[n..] == got + Rest(after)
      && (!Open(fs, s[..n]) ==> n < 32)
      && match readErr
        case NoError => false
        case Timeout => err == NoError &&
          if Open(fs, s[..n]) then
            p.data == s[..Restart(fs, s, 1, n)] && p.readError == if |p.data| == n then TimeoutInPacket else NoError
          else
            && p.data == s[..n]
            && p.readError == if n > 0 then NoError else if got == [] then Timeout else TimeoutInPacket
        case Temporary => p.data == s[..n] && p.readError == Temporary && err == NoError
        case e => p.data == s[..n] && p.readError == NoError && err == e
  }

  /** A result is taken for a timeout between packets exactly when the read that failed timed out, without bytes, and
      nothing was scanned before it. */
  lemma BetweenPackets(fs: seq<Format>, s: seq<byte>, p: Packet, err: ReadError, failures: int, got: seq<byte>,
    readErr: ReadError, after: seq<Event>)
    requires Returned(fs, s, p, err, failures, got, readErr, after)
    ensures p.IsInterPacketTimeout() <==> failures == 1 && readErr == Timeout && got == [] && s == Rest(after)
  {
    hide Starts, Candidate, RunEnds;
    assert [] + Rest(after) == Rest(after);
    assert s[0..] == s;
  }

  /** What a call of Scan returns, given the stream `s` it starts from and the stream `rest` it leaves. */
  ghost predicate ScanResult(fs: seq<Format>, prev: bool, s: seq<byte>, before: seq<Event>,
    p: Packet, err: ReadError, rest: seq<byte>, after: seq<Event>)
  {
    // No byte is lost, repeated or reordered.
    && s == p.data + rest
    // The call makes progress.
    && (err == p.readError == NoError ==> p.data != [])
    && |after| <= |before|
    && (p.readError != NoError ==> |after| < |before|)
    // Recognition is sound.
    && (p.fmt.None? ==> !p.checksumValid)
    && (p.fmt.Some? ==>
      && err == p.readError == NoError && p.fmt.value < |fs|
      && fs[p.fmt.value].ValidPacket(p.data)
      && p.checksumValid == fs[p.fmt.value].ChecksumValid(p.data)
      // It is the next piece of the segmentation, whatever errors the reader reported.
      && Tokens(fs, prev, s) == TokensOf(p) + Tokens(fs, p.checksumValid, rest))
    // Invalid data hides no possible start.
    && (p.fmt.None? && err == p.readError == NoError ==>
      forall i :: 1 <= i < |p.data| ==> !Starts(fs, p.data[i]))
    // Without transient errors, the result is the next piece of the segmentation.
    && (EndsCleanly(before) ==>
      && EndsCleanly(after) && p.readError == NoError
      && NextPiece(fs, prev, s, p, err, rest, EndBytes(before), EndBytes(after), Rest(after)))
  }

  lemma RestartIsHere(fs: seq<Format>, s: seq<byte>, contents: seq<byte>, start: nat, n: nat, k: nat)
    requires start + n <= |contents| && 1 <= k <= n <= |s| && contents[start..start + n] == s[..n]
    requires forall i :: start < i < start + k ==> !Starts(fs, contents[i])
    requires k < n ==> Starts(fs, contents[start + k])
    ensures k == Restart(fs, s, 1, n)
  {
    hide Starts;
    forall i | 0 <= i < n ensures s[i] == contents[start + i] {
      assert s[i] == s[..n][i] == contents[start..start + n][i];
    }
    RestartIs(fs, s, 1, n, k);
  }

  /** What is returned for a finding about the first `n` bytes. */
  ghost predicate IsReturned(fs: seq<Format>, s: seq<byte>, f: Finding, n: nat, got: seq<byte>, p: Packet,
    err: ReadError)
  {
    && n <= |s| && |p.data| <= |s| && Settled(fs, s, f, n, got, |p.data|, p.readError, err)
    && p == Packet(if f.Whole? then Some(f.fmt) else None, p.readError, s[..|p.data|], f.Whole? && f.ok)
  }

  lemma FindingReturned(fs: seq<Format>, prev: bool, s: seq<byte>, before: seq<Event>, f: Finding, n: nat,
    p: Packet, err: ReadError, unscanned: seq<byte>, after: seq<Event>)
    requires IsReturned(fs, s, f, n, unscanned, p, err) && Justified(fs, prev, s, f, n)
    requires s[n..] == unscanned + Rest(after) && ReaderMoved(before, after, unscanned, f)
    ensures ScanResult(fs, prev, s, before, p, err, s[|p.data|..], after)
  {
    hide Tokens, Starts, Candidate, Open;
    var k := |p.data|;
    assert s == s[..k] + s[k..];
    if k == |s| {
      assert s[..k] == s;
    }
  }

  /** Only a failed read matters to what is returned. */
  lemma NotSettledByRead(fs: seq<Format>, s: seq<byte>, f: Finding, n: nat, got: seq<byte>, got': seq<byte>, p: Packet,
    err: ReadError)
    requires IsReturned(fs, s, f, n, got, p, err) && !f.Interrupted?
    ensures IsReturned(fs, s, f, n, got', p, err)
  {
  }

  lemma FindingExplained(fs: seq<Format>, prev: bool, s: seq<byte>, f: Finding, n: nat, p: Packet, err: ReadError,
    after: seq<Event>, failures: int, got: seq<byte>, readErr: ReadError)
    requires IsReturned(fs, s, f, n, got, p, err) && Justified(fs, prev, s, f, n)
    requires failures == (if f.Interrupted? then 1 else 0)
    requires f.Interrupted? ==> s[n..] == got + Rest(after) && readErr == f.err
    ensures Returned(fs, s, p, err, failures, got, readErr, after)
  {
    hide Tokens, Starts, Candidate, Open, RunEnds, Skipped;
  }

  class Reader {
    var events: seq<Event>

    /** How many reads have failed, and what the last read returned. */
    ghost var failures: nat
    ghost var lastGot: seq<byte>
    ghost var lastErr: ReadError

    constructor (events: seq<Event>)
      ensures this.events == events
    {
      this.events := events;
    }

    /** Reads into buf[off..]. */
    method Read(buf: array<byte>, off: nat) returns (n: nat, err: ReadError)
      requires off <= buf.Length
      modifies this, buf
      ensures off + n <= buf.Length
      ensures buf[..off] == old(buf[..off])
      ensures (buf[off..off + n], err, events) == Deliver(old(events), buf.Length - off)
      ensures failures == old(failures) + if err != NoError then 1 else 0
      ensures lastGot == buf[off..off + n] && lastErr == err
    {
      var (chunk, e, left) := Deliver(events, buf.Length - off);
      n, err, events := |chunk|, e, left;
      failures, lastGot, lastErr := failures + (if err != NoError then 1 else 0), chunk, e;
      forall i | 0 <= i < n {
        buf[off + i] := chunk[i];
      }
      assert buf[off..off + n] == chunk;
    }
  }

  lemma SplitAt(contents: seq<byte>, rest: seq<byte>, start: nat, next: nat)
    requires start <= next <= |contents|
    ensures var from := contents[start..] + rest; var window := contents[next..] + rest;
      && from[..next - start] == contents[start..next] && from[next - start..] == window
      && from == contents[start..next] + window && |from| >= next - start
      && (next < |contents| ==> next - start < |from| && from[next - start] == contents[next])
  {
    assert contents[start..] == contents[start..next] + contents[next..];
  }

  class Scanner {
    const formats: seq<Format>
    const reader: Reader
    /** The capacity of the buffer is buf.Length; the valid data are buf[..len], which `contents` names. */
    var buf: array<byte>
    var len: nat
    ghost var contents: seq<byte>
    /** Where scanning goes on: the bytes before it are returned already or are the packet so far. */
    var next: nat
    var prevPktValid: bool

    ghost predicate Buffered()
      reads this`buf, this`len, this`contents, buf
    {
      len <= buf.Length && 0 < buf.Length && contents == buf[..len]
    }

    ghost predicate Valid()
      reads this`buf, this`len, this`contents, this`next, buf
    {
      Buffered() && next <= len == |contents| <= buf.Length
    }

    /** The stream from index start of the buffer on: what the buffer holds and what the reader still has. */
    ghost function From(start: nat): seq<byte>
      requires start <= |contents|
      reads this`contents, reader
    {
      contents[start..] + Rest(reader.events)
    }

    /** How many bytes of the stream from the packet so far on have been read. */
    ghost function Seen(packetLen: nat): nat
      requires packetLen <= next <= |contents|
      reads this`contents, this`next
    {
      |contents| - (next - packetLen)
    }

    /** Everything not yet returned. */
    ghost function Window(): seq<byte>
      requires Valid()
      reads this`buf, this`len, this`contents, this`next, buf, reader
    {
      From(next)
    }

    lemma FromParts(start: nat)
      requires Valid() && start <= next
      ensures |From(start)| >= next - start
      ensures From(start)[..next - start] == contents[start..next] == buf[start..next]
      ensures From(start)[next - start..] == Window()
      ensures From(start) == contents[start..next] + Window()
      ensures Window() == contents[next..] + Rest(reader.events) && len <= buf.Length
      ensures next < len ==> next - start < |From(start)| && From(start)[next - start] == contents[next] == buf[next]
    {
      SplitAt(contents, Rest(reader.events), start, next);
      assert buf[..len][start..next] == buf[start..next];
      hide Rest;
    }

    constructor (r: Reader, bufSize: nat, pktFormats: seq<Format>)
      ensures fresh(buf) && reader == r && formats == pktFormats && (bufSize > 0 ==> Valid())
      ensures next == len == 0 && buf.Length == bufSize && !prevPktValid
    {
      formats, reader := pktFormats, r;
      buf := new byte[bufSize];
      len, next, prevPktValid, contents := 0, 0, false, [];
    }

    /** Keeps only the packetLen bytes before next, in front, in a larger buffer if they fill more than half of it. */
    method Compact(packetLen: nat)
      requires Valid() && packetLen <= next
      modifies this`buf, this`len, this`contents, this`next, buf
      ensures Valid() && (buf == old(buf) || fresh(buf)) && next == len == packetLen < buf.Length
      ensures contents == old(contents[next - packetLen..next])
      ensures buf.Length == if packetLen <= old(buf.Length) / 2 then old(buf.Length) else 2 * old(buf.Length)
    {
      var start := next - packetLen;
      ghost var kept := contents[start..next];
      assert forall i :: 0 <= i < packetLen ==> kept[i] == buf[start + i];
      if packetLen <= buf.Length / 2 {
        forall i | 0 <= i < packetLen {
          buf[i] := buf[start + i];
        }
      } else {
        var grown := new byte[2 * buf.Length];
        forall i | 0 <= i < packetLen {
          grown[i] := buf[start + i];
        }
        buf := grown;
      }
      assert buf[..packetLen] == kept;
      len, next, contents := packetLen, packetLen, kept;
    }

    /** Reads until some bytes or an error arrive. */
    method ReadSome() returns (err: ReadError)
      requires Valid() && next == len < buf.Length
      modifies this`len, this`contents, buf, reader
      ensures Valid() && |contents| >= old(len) && contents[..old(len)] == old(contents)
      ensures err == NoError ==> next < len
      ensures ReadsTo(old(reader.events), reader.events, contents[old(len)..], err)
      ensures reader.failures == old(reader.failures) + if err != NoError then 1 else 0
      ensures err != NoError ==> reader.lastGot == contents[old(len)..] && reader.lastErr == err
    {
      hide ReadsTo, StillClean, EndsCleanly, EndBytes, Rest, Deliver;
      ghost var before, kept := reader.events, buf[..len];
      ghost var got: seq<byte> := [];
      var n: nat;
      n, err := 0, NoError;
      NothingRead(before, got);
      while n == 0 && err == NoError
        modifies buf, reader
        invariant len + n <= buf.Length && buf[..len] == kept && buf[len..len + n] == got
        invariant ReadsTo(before, reader.events, got, err)
        invariant reader.failures == old(reader.failures) + if err != NoError then 1 else 0
        invariant err != NoError ==> reader.lastGot == got && reader.lastErr == err
        decreases n == 0 && err == NoError, |reader.events|
      {
        DeliverReadsTo(before, reader.events, got, buf.Length - len);
        n, err := reader.Read(buf, len);
        got := buf[len..len + n];
      }
      assert buf[..len + n] == kept + got;
      assert (kept + got)[..len] == kept && (kept + got)[len..] == got;
      contents := contents + got;
      len := len + n;
    }

    /** Reads more once everything in the buffer has been scanned, keeping the packetLen bytes up to next. */
    method Fill(packetLen: nat) returns (err: ReadError)
      requires Valid() && packetLen <= next == len
      modifies this`buf, this`len, this`contents, this`next, buf, reader
      ensures Valid() && (buf == old(buf) || fresh(buf)) && next == packetLen
      ensures From(0) == old(From(next - packetLen))
      ensures err == NoError ==> next < len
      ensures ReadsTo(old(reader.events), reader.events, contents[next..], err)
      ensures reader.failures == old(reader.failures) + if err != NoError then 1 else 0
      ensures err != NoError ==> reader.lastGot == contents[next..] && reader.lastErr == err
    {
      Compact(packetLen);
      err := ReadSome();
      assert contents == contents[..next] + contents[next..];
    }

    /** The first format from index j on that can start with b. */
    method FindFormat(j: nat, b: byte) returns (i: nat)
      requires j <= |formats|
      ensures i == FirstStart(formats, j, b)
    {
      i := j;
      while i < |formats| && formats[i].start(b) == SYNC
        invariant j <= i <= |formats|
        invariant FirstStart(formats, i, b) == FirstStart(formats, j, b)
      {
        i := i + 1;
      }
    }

    /** Gives up a candidate only as far as the next byte some format could start with, where scanning then goes on;
        returns the number of bytes given up. */
    method Restart(packetLen: nat) returns (r: nat)
      requires Valid() && packetLen <= next
      modifies this`next
      ensures r <= packetLen && next == old(next) - packetLen + r && (packetLen > 0 ==> r > 0)
      ensures forall i :: next - r < i < next ==> !Starts(formats, contents[i])
      ensures r < packetLen ==> Starts(formats, contents[next])
    {
      var start := next - packetLen;
      var i := start + 1;
      while i < next
        invariant next == old(next) && start < i && (i <= next || packetLen == 0)
        invariant forall m :: start < m < i && m < next ==> !Starts(formats, contents[m])
      {
        var f := FindFormat(0, buf[i]);
        if f < |formats| {
          next := i;
          return i - start;
        }
        i := i + 1;
      }
      return packetLen;
    }

    /** What Scan makes of an error from the reader: the bytes it gives up, and where it reports the error. */
    method OnReadError(e: ReadError, inCandidate: bool, packetLen: nat)
      returns (k: nat, readError: ReadError, err: ReadError)
      requires Valid() && packetLen <= next && e != NoError && (inCandidate ==> packetLen > 0)
      modifies this`next
      ensures k <= packetLen && next == old(next) - packetLen + k
      ensures err == NoError || err == e
      ensures e == EOF || e.Fatal? || e == TimeoutInPacket ==> k == packetLen && err == e
      ensures (!inCandidate ==> k == packetLen) && (packetLen > 0 ==> k > 0)
      ensures e == EOF || e.Fatal? || e == TimeoutInPacket ==> readError == NoError
      // A timeout is reported between packets, and in a candidate that hides no possible start.
      ensures e == Timeout ==> err == NoError
      ensures e == Timeout && inCandidate ==> readError == if k < packetLen then NoError else TimeoutInPacket
      ensures e == Timeout && !inCandidate ==>
        readError == if packetLen > 0 then NoError else if len == 0 then Timeout else TimeoutInPacket
      ensures e == Timeout && inCandidate ==>
        (forall i :: next - k < i < next ==> !Starts(formats, contents[i])) &&
        (k < packetLen ==> Starts(formats, contents[next]))
      ensures e == Temporary ==> readError == Temporary && k == packetLen && err == NoError
    {
      k, readError, err := packetLen, NoError, NoError;
      if e == Timeout {
        if packetLen == 0 && len == 0 {
          readError := e;
        } else if packetLen > 0 && !inCandidate {
          // A timeout in the middle of invalid data is no error.
        } else {
          var n := next;
          k := Restart(packetLen);
          if next == n {
            readError := TimeoutInPacket;
          }
        }
      } else if e == Temporary {
        readError := e;
      } else {
        err := e;
      }
    }

    /** Decides what the byte at next does to the packet so far. */
    method Decide(state: ScanState, cur: nat, packetLen: nat, ghost s: seq<byte>) returns (r: Decision)
      requires Scanning(state, cur, packetLen, s) && next < len
      ensures match r
        case Accept(j, state') =>
          && packetLen < |s| && (state == SYNC ==> state' == SYNC || packetLen == 0)
          && if state' == SYNC then
               && state == SYNC && Skipped(formats, prevPktValid, s, packetLen + 1)
               && Decided(formats, s, Seen(packetLen))
             else
               && j < |formats| && (state != SYNC ==> j == cur)
               && if formats[j].isFinal(state') then
                    Completes(formats, s, j, packetLen + 1) && Decided(formats, s, Seen(packetLen))
                  else Trying(formats, s, Seen(packetLen), j, state', packetLen + 1)
        case Switch(j, state') =>
          state != SYNC && cur < j < |formats| && state' != SYNC && Trying(formats, s, Seen(packetLen), j, state', 1)
        case PacketStart =>
          state == SYNC && 0 < packetLen < |s| && s[packetLen] == buf[next] && Starts(formats, buf[next])
        case NoFormat =>
          && state != SYNC && MustGiveUp(formats, prevPktValid, s, packetLen) && Decided(formats, s, Seen(packetLen))
          && Starts(formats, s[0]) && Candidate(formats, s) == Failed(packetLen)
    {
      hide From, Completes, Skipped, MustGiveUp, Trying, Decided, Candidate;
      FromParts(next - packetLen);
      if state != SYNC {
        var nextState := formats[cur].Next(state, buf[next - packetLen..next], buf[next]);
        TryByte(formats, prevPktValid, s, Seen(packetLen), cur, state, packetLen);
        if nextState != SYNC {
          return Accept(cur, nextState);
        }
        // Another format may match the first byte.
        var first := buf[next - packetLen];
        assert first == s[0];
        var j := FindFormat(cur + 1, first);
        return if j < |formats| then Switch(j, formats[j].start(first)) else NoFormat;
      }
      var j := FindFormat(0, buf[next]);
      if j == |formats| {
        SkipByte(formats, prevPktValid, s, packetLen);
        NeverOpen(formats, s, Seen(packetLen), packetLen);
        return Accept(0, SYNC);
      }
      if packetLen > 0 {
        return PacketStart;
      }
      BeginCandidate(formats, s, Seen(packetLen), j);
      return Accept(j, formats[j].start(buf[next]));
    }

    /** A format has taken packetLen bytes as a packet: is it accepted, and is its checksum good? */
    method CheckPacket(cur: nat, packetLen: nat, ghost s: seq<byte>) returns (accepted: bool, ok: bool)
      requires Valid() && 0 < packetLen <= next && packetLen <= |s| && s == From(next - packetLen)
      requires cur < |formats| && Completes(formats, s, cur, packetLen)
      ensures accepted ==> IsPacket(formats, prevPktValid, s, cur, ok, packetLen)
      ensures !accepted ==> MustGiveUp(formats, prevPktValid, s, packetLen)
    {
      hide Completes, IsPacket, MustGiveUp, From;
      FromParts(next - packetLen);
      var pkt := buf[next - packetLen..next];
      PacketComplete(formats, prevPktValid, s, cur, packetLen);
      ok := formats[cur].extractChecksum(pkt) == formats[cur].computeChecksum(pkt);
      accepted := ok || !formats[cur].rescanOnBadChecksum(prevPktValid, pkt);
    }

    /** Restarts inside a candidate that must be given up. */
    method GiveUpCandidate(packetLen: nat, ghost s: seq<byte>) returns (r: nat)
      requires Valid() && 0 < packetLen <= next && packetLen <= |s| && s == From(next - packetLen)
      requires MustGiveUp(formats, prevPktValid, s, packetLen) && Decided(formats, s, Seen(packetLen))
      modifies this`next
      ensures Scanning(SYNC, 0, r, s) && 0 < r && r == Segmentation.Restart(formats, s, 1, packetLen)
    {
      hide Skipped, MustGiveUp, From, Starts, Rest, Decided, Segmentation.Restart, Buffered;
      FromParts(next - packetLen);
      ghost var start := next - packetLen;
      r := Restart(packetLen);
      assert next - r == start;
      RestartIsHere(formats, s, contents, start, packetLen, r);
      GiveUpSkips(formats, prevPktValid, s, packetLen, r);
    }

    /** The last packetLen bytes before next are the packet so far of the stream s. */
    ghost predicate Scanning(state: ScanState, cur: nat, packetLen: nat, s: seq<byte>)
      reads this, buf, reader
    {
      && Valid() && packetLen <= next && packetLen <= |s| && s == From(next - packetLen)
      && (state != SYNC ==> cur < |formats| && packetLen > 0)
      && if state == SYNC then
           Skipped(formats, prevPktValid, s, packetLen) && (packetLen > 0 ==> Decided(formats, s, Seen(packetLen)))
         else Trying(formats, s, Seen(packetLen), cur, state, packetLen)
    }

    /** The last packetLen bytes before next are what the finding f is about. */
    ghost predicate Ready(f: Finding, packetLen: nat, s: seq<byte>)
      reads this, buf, reader
    {
      && Valid() && packetLen <= next && packetLen <= |s| && s == From(next - packetLen)
      && Justified(formats, prevPktValid, s, f, packetLen)
    }

    lemma ReadyParts(f: Finding, packetLen: nat, s: seq<byte>)
      requires Ready(f, packetLen, s)
      ensures Valid() && next <= |contents| && packetLen <= |s|
      ensures Justified(formats, prevPktValid, s, f, packetLen)
      ensures s[packetLen..] == Window() == contents[next..] + Rest(reader.events)
    {
      hide Justified, Rest;
      FromParts(next - packetLen);
    }

    /** Scans the byte at next. */
    method ScanByte(state: ScanState, cur: nat, packetLen: nat, ghost s: seq<byte>) returns (step: Step)
      requires Scanning(state, cur, packetLen, s) && next < len
      modifies this`next
      ensures match step
        case Stop(f, packetLen') => Ready(f, packetLen', s) && !f.Interrupted?
        case More(state', cur', packetLen', rescanned) =>
          && Scanning(state', cur', packetLen', s)
          && Progress(|formats|, |s|, state, cur, packetLen, step)
    {
      hide Skipped, Trying, Completes, IsPacket, MustGiveUp, From, Decided, Candidate;
      ghost var start := next - packetLen;
      var d := Decide(state, cur, packetLen, s);
      match d {
        case PacketStart =>
          step := Stop(Invalid, packetLen);
        case NoFormat =>
          var r := GiveUpCandidate(packetLen, s);
          step := Stop(Invalid, r);
        case Switch(j, state') =>
          next := next - packetLen + 1;
          assert next - 1 == start;
          step := More(state', j, 1, false);
        case Accept(j, state') =>
          next := next + 1;
          assert next - (packetLen + 1) == start;
          step := More(state', j, packetLen + 1, false);
          if state' != SYNC && formats[j].isFinal(state') {
            var accepted, ok := CheckPacket(j, packetLen + 1, s);
            if accepted {
              step := Stop(Whole(j, ok), packetLen + 1);
            } else {
              var r := GiveUpCandidate(packetLen + 1, s);
              step := More(SYNC, 0, r, true);
            }
          }
      }
    }

    /** Makes sure there is a byte to scan, unless there is something to return first. */
    method Refill(state: ScanState, cur: nat, packetLen: nat, ghost s: seq<byte>) returns (found: Option<Finding>)
      requires Scanning(state, cur, packetLen, s)
      modifies this`buf, this`len, this`contents, this`next, buf, reader
      ensures buf == old(buf) || fresh(buf)
      ensures match found
        case Some(f) => Ready(f, packetLen, s) && ReaderMoved(old(reader.events), reader.events, contents[next..], f)
        case None => Scanning(state, cur, packetLen, s) && next < len && Consumed(old(reader.events), reader.events)
      ensures reader.failures == old(reader.failures) + if found.Some? && found.value.Interrupted? then 1 else 0
      ensures found.Some? && found.value.Interrupted? ==>
        next == packetLen && reader.lastGot == contents[next..] && reader.lastErr == found.value.err
    {
      hide Skipped, Trying, IsPacket, From, Buffered, Tokens, Decided, Open, RunEnds, Candidate, Starts, Rest, Consumed;
      hide ReadsTo, ReaderMoved;
      ghost var before := reader.events;
      NothingConsumed(before);
      if next < len {
        return None;
      }
      if state == SYNC && packetLen >= MIN_INVALID_PACKET_LEN {
        ConsumedMoves(before, before, contents[next..], Invalid);
        LongRunEnds(formats, s, packetLen);
        return Some(Invalid);
      }
      if |s| == packetLen {
        StreamEnds(formats, prevPktValid, s, cur, state);
      }
      OpenWhenTrying(formats, s, cur, state, packetLen);
      var err := Fill(packetLen);
      FromParts(0);
      assert next - packetLen == 0 && Seen(packetLen) == |contents|;
      ReadingOn(formats, s, packetLen, |contents|, cur, state, packetLen);
      if err != NoError {
        ReadMoves(before, reader.events, contents[next..], Interrupted(err, state != SYNC));
      } else {
        ReadConsumed(before, reader.events, contents[next..]);
      }
      return if err != NoError then Some(Interrupted(err, state != SYNC)) else None;
    }

    /** Scans the next byte, reading first if there is none. */
    method Advance(state: ScanState, cur: nat, packetLen: nat, ghost s: seq<byte>) returns (step: Step)
      requires Scanning(state, cur, packetLen, s)
      modifies this`buf, this`len, this`contents, this`next, buf, reader
      ensures buf == old(buf) || fresh(buf)
      ensures match step
        case Stop(f, n) => Ready(f, n, s) && ReaderMoved(old(reader.events), reader.events, contents[next..], f)
        case More(state', cur', n, rescanned) =>
          && Scanning(state', cur', n, s) && Consumed(old(reader.events), reader.events)
          && Progress(|formats|, |s|, state, cur, packetLen, step)
      ensures reader.failures == old(reader.failures) + if step.Stop? && step.finding.Interrupted? then 1 else 0
      ensures step.Stop? && step.finding.Interrupted? ==>
        next == step.packetLen && reader.lastGot == contents[next..] && reader.lastErr == step.finding.err
    {
      hide Skipped, Trying, IsPacket, From, Buffered, Tokens, ReaderMoved, Justified, Consumed, Rest, Decided;
      ghost var before := reader.events;
      var found := Refill(state, cur, packetLen, s);
      if found.Some? {
        return Stop(found.value, packetLen);
      }
      step := ScanByte(state, cur, packetLen, s);
      if step.Stop? {
        ConsumedMoves(before, reader.events, contents[next..], step.finding);
      }
    }

    /** The scanning loop: consumes bytes until something can be returned. */
    method FindPacket(ghost s: seq<byte>)
      returns (f: Finding, packetLen: nat, ghost rescans: nat, ghost switches: nat)
      requires Valid() && s == Window()
      modifies this`buf, this`len, this`contents, this`next, buf, reader
      ensures Ready(f, packetLen, s) && (buf == old(buf) || fresh(buf))
      ensures ReaderMoved(old(reader.events), reader.events, contents[next..], f)
      // Backtracking is bounded.
      ensures rescans <= 1 && (switches == 0 || switches < |formats|)
      ensures reader.failures == old(reader.failures) + if f.Interrupted? then 1 else 0
      ensures f.Interrupted? ==> next == packetLen && reader.lastGot == contents[next..] && reader.lastErr == f.err
    {
      SkipNone(formats, prevPktValid, s);
      assert Scanning(SYNC, 0, 0, s);
      hide Scanning, Ready, Skipped, From, Tokens, ReaderMoved, Justified, Consumed, Rest;
      ghost var before := reader.events;
      var state, cur: nat := SYNC, 0;
      packetLen, rescans, switches := 0, 0, 0;
      NothingConsumed(before);
      while true
        invariant Scanning(state, cur, packetLen, s) && (buf == old(buf) || fresh(buf))
        invariant Consumed(before, reader.events) && reader.failures == old(reader.failures)
        invariant packetLen <= |s| && (state != SYNC ==> cur < |formats|)
        invariant rescans <= (if state == SYNC && packetLen > 0 then 1 else 0)
        invariant switches <= (if state != SYNC then cur else if packetLen == 0 then 0 else |formats|)
        invariant switches == 0 || switches < |formats|
        decreases state == SYNC && packetLen == 0, state != SYNC,
          if state != SYNC then |formats| - cur else 0, |s| - packetLen
      {
        ghost var mid := reader.events;
        var step := Advance(state, cur, packetLen, s);
        match step {
          case Stop(f', n) =>
            MovedOn(before, mid, reader.events, contents[next..], f');
            return f', n, rescans, switches;
          case More(state', cur', n, rescanned) =>
            ConsumedOn(before, mid, reader.events);
            rescans := if rescanned then rescans + 1 else rescans;
            switches := if state != SYNC && state' != SYNC && cur < cur' then switches + 1 else switches;
            state, cur, packetLen := state', cur', n;
        }
      }
    }

    /** Turns a finding into what is returned for it. */
    method Settle(f: Finding, packetLen: nat, ghost s: seq<byte>) returns (p: Packet, err: ReadError)
      requires Ready(f, packetLen, s) && (f.Interrupted? ==> next == packetLen)
      modifies this`next, this`prevPktValid
      ensures IsReturned(formats, s, f, packetLen, old(contents[next..]), p, err)
      ensures Valid() && |p.data| <= |s| && Window() == s[|p.data|..] && prevPktValid == p.checksumValid
    {
      hide IsPacket, Tokens, From, Skipped, RunEnds, Candidate, Starts, Open, Rest;
      ghost var start := next - packetLen;
      var k, readError;
      k, readError, err := packetLen, NoError, NoError;
      if f.Interrupted? {
        k, readError, err := OnReadError(f.err, f.inCandidate, packetLen);
      }
      assert next - k == start;
      FromParts(start);
      if f.Interrupted? && f.inCandidate && f.err == Timeout {
        RestartIsHere(formats, s, contents, start, packetLen, k);
      }
      p := Packet(if f.Whole? then Some(f.fmt) else None, readError, buf[next - k..next], f.Whole? && f.ok);
      prevPktValid := p.checksumValid;
    }

    method Scan() returns (p: Packet, err: ReadError)
      requires Valid()
      modifies this`buf, this`len, this`contents, this`next, this`prevPktValid, buf, reader
      ensures Valid() && (buf == old(buf) || fresh(buf))
      ensures prevPktValid == p.checksumValid
      ensures ScanResult(formats, old(prevPktValid), old(Window()), old(reader.events), p, err, Window(), reader.events)
      ensures Returned(formats, old(Window()), p, err, reader.failures - old(reader.failures), reader.lastGot,
        reader.lastErr, reader.events)
    {
      hide Justified, Settled, IsReturned, ScanResult, Returned, ReaderMoved, Rest, From, Buffered, Ready, Window;
      ghost var s, before := Window(), reader.events;
      var f, packetLen, _, _ := FindPacket(s);
      ReadyParts(f, packetLen, s);
      ghost var unscanned := contents[next..];
      p, err := Settle(f, packetLen, s);
      FindingReturned(formats, old(prevPktValid), s, before, f, packetLen, p, err, unscanned, reader.events);
      if !f.Interrupted? {
        NotSettledByRead(formats, s, f, packetLen, unscanned, reader.lastGot, p, err);
      }
      FindingExplained(formats, old(prevPktValid), s, f, packetLen, p, err, reader.events,
        reader.failures - old(reader.failures), reader.lastGot, reader.lastErr);
    }
  }
}
