/** Whole runs of the scanner: the loop of gps/app/gpsio/conn.go that scans until the reader fails. */
module ScanRuns {
  import Sequences
  import opened Options
  import opened PacketFormats
  import opened Segmentation
  import Recognition
  import opened Scan

  /** The initial size of the buffer. */
  const SCAN_BUF_SIZE := 16

  /** A recognised packet, or a maximal run of bytes between packets. */
  datatype Piece = WholePacket(fmt: nat, data: seq<byte>, ok: bool) | InvalidRun(data: seq<byte>)

  function Flat(ps: seq<Packet>): seq<Token> {
    if ps == [] then [] else TokensOf(ps[0]) + Flat(ps[1..])
  }

  function Data(ps: seq<Packet>): seq<byte> {
    if ps == [] then [] else ps[0].data + Data(ps[1..])
  }

  /** Puts invalid bytes in front of the pieces, joining them to an invalid run that is already first. */
  function JoinFront(data: seq<byte>, pieces: seq<Piece>): seq<Piece> {
    if data == [] then pieces
    else if pieces != [] && pieces[0].InvalidRun? then [InvalidRun(data + pieces[0].data)] + pieces[1..]
    else [InvalidRun(data)] + pieces
  }

  /** The results of a run with adjacent invalid pieces joined. */
  function Joined(ps: seq<Packet>): seq<Piece> {
    if ps == [] then []
    else match ps[0].fmt
      case Some(j) => [WholePacket(j, ps[0].data, ps[0].checksumValid)] + Joined(ps[1..])
      case None => JoinFront(ps[0].data, Joined(ps[1..]))
  }

  function JoinedTokens(ts: seq<Token>): seq<Piece> {
    if ts == [] then []
    else match ts[0]
      case Recognised(j, data, ok) => [WholePacket(j, data, ok)] + JoinedTokens(ts[1..])
      case Junk(b) => JoinFront([b], JoinedTokens(ts[1..]))
  }

  lemma JoinFrontAppend(a: seq<byte>, b: seq<byte>, pieces: seq<Piece>)
    ensures JoinFront(a + b, pieces) == JoinFront(a, JoinFront(b, pieces))
  {
    if a == [] {
      assert a + b == b;
    } else if b == [] {
      assert a + b == a;
    } else if pieces != [] && pieces[0].InvalidRun? {
      assert (a + b) + pieces[0].data == a + (b + pieces[0].data);
    }
  }

  lemma {:induction false} JunkJoins(data: seq<byte>, ts: seq<Token>)
    ensures JoinedTokens(JunkOf(data) + ts) == JoinFront(data, JoinedTokens(ts))
  {
    if data == [] {
      assert JunkOf(data) + ts == ts;
    } else {
      var tail := JunkOf(data[1..]) + ts;
      assert JunkOf(data) + ts == [Junk(data[0])] + tail;
      assert (JunkOf(data) + ts)[1..] == tail;
      assert data[..1] == [data[0]];
      JunkJoins(data[1..], ts);
      JoinFrontAppend(data[..1], data[1..], JoinedTokens(ts));
      assert data == data[..1] + data[1..];
    }
  }

  /** Joining the results of a run depends only on their tokens. */
  lemma {:induction false} JoinedIsJoinedTokens(ps: seq<Packet>)
    ensures Joined(ps) == JoinedTokens(Flat(ps))
  {
    if ps != [] {
      JoinedIsJoinedTokens(ps[1..]);
      match ps[0].fmt
      case None => JunkJoins(ps[0].data, Flat(ps[1..]));
      case Some(j) =>
        assert Flat(ps) == [Recognised(j, ps[0].data, ps[0].checksumValid)] + Flat(ps[1..]);
    }
  }

  lemma {:induction false} FlatAppend(ps: seq<Packet>, p: Packet)
    ensures Flat(ps + [p]) == Flat(ps) + TokensOf(p)
    ensures Data(ps + [p]) == Data(ps) + p.data
  {
    hide *;
    if ps == [] {
      assert ps + [p] == [p] && [p][1..] == [];
      FlatParts([p]);
      FlatParts([]);
    } else {
      assert (ps + [p])[1..] == ps[1..] + [p];
      FlatAppend(ps[1..], p);
      FlatParts(ps);
      FlatParts(ps + [p]);
      Sequences.Associates(TokensOf(ps[0]), Flat(ps[1..]), TokensOf(p));
      Sequences.Associates(ps[0].data, Data(ps[1..]), p.data);
    }
  }

  lemma FlatParts(ps: seq<Packet>)
    ensures ps == [] ==> Flat(ps) == [] && Data(ps) == []
    ensures ps != [] ==> Flat(ps) == TokensOf(ps[0]) + Flat(ps[1..]) && Data(ps) == ps[0].data + Data(ps[1..])
  {
  }

  lemma ReturnedMore(ps: seq<Packet>, p: Packet, window: seq<byte>, rest: seq<byte>)
    requires window == p.data + rest
    ensures Data(ps) + window == Data(ps + [p]) + rest
  {
    FlatAppend(ps, p);
    assert Data(ps) + (p.data + rest) == (Data(ps) + p.data) + rest;
  }

  lemma {:induction false} FlatBytes(ps: seq<Packet>)
    ensures Bytes(Flat(ps)) == Data(ps)
  {
    if ps != [] {
      FlatBytes(ps[1..]);
      Recognition.BytesAppend(TokensOf(ps[0]), Flat(ps[1..]));
      Recognition.BytesOfJunk(ps[0].data);
    }
  }

  /** Results whose bytes, with `rest`, make up the stream `s` are its whole segmentation only if nothing is left. */
  lemma IncompleteRun(fs: seq<Format>, prev: bool, s: seq<byte>, ps: seq<Packet>, rest: seq<byte>)
    requires s == Data(ps) + rest && Flat(ps) == Tokens(fs, prev, s)
    ensures rest == []
  {
    FlatBytes(ps);
    Recognition.TokensConserveBytes(fs, prev, s);
  }

  /** Scans until the reader fails. */
  method ScanAll(sc: Scanner) returns (ps: seq<Packet>, err: ReadError)
    requires sc.Valid()
    modifies sc, sc.buf, sc.reader
    ensures sc.Valid() && err != NoError
    // Under any mix of chunks and errors, every byte read is returned once, in order, or still in the buffer.
    ensures old(sc.Window()) == Data(ps) + sc.Window()
    // A stream that ends cleanly is cut as the segmentation says, however it is read, exactly when its end
    // arrives in a read of its own.
    ensures EndsCleanly(old(sc.reader.events)) ==>
      (Flat(ps) == Tokens(sc.formats, old(sc.prevPktValid), old(sc.Window())) <==>
        EndBytes(old(sc.reader.events)) == [])
    ensures EndsCleanly(old(sc.reader.events)) && EndBytes(old(sc.reader.events)) == [] ==>
      Joined(ps) == JoinedTokens(Tokens(sc.formats, old(sc.prevPktValid), old(sc.Window())))
  {
    hide Tokens, NextPiece, EndsCleanly, EndBytes, Rest, SegmentedSoFar;
    ghost var s, prev, events := sc.Window(), sc.prevPktValid, sc.reader.events;
    ps, err := [], NoError;
    SegmentStart(sc.formats, prev, s, EndBytes(events));
    while err == NoError
      invariant sc.Valid() && (sc.buf == old(sc.buf) || fresh(sc.buf))
      invariant s == Data(ps) + sc.Window()
      invariant EndsCleanly(events) ==>
        EndsCleanly(sc.reader.events) &&
        SegmentedSoFar(sc.formats, prev, s, ps, err, sc.prevPktValid, sc.Window(), EndBytes(events),
          EndBytes(sc.reader.events))
      decreases err == NoError, |sc.Window()| + |sc.reader.events|
    {
      var p;
      ghost var window, before, prev' := sc.Window(), sc.reader.events, sc.prevPktValid;
      p, err := sc.Scan();
      ReturnedMore(ps, p, window, sc.Window());
      if EndsCleanly(events) {
        SegmentStep(sc.formats, prev, s, ps, prev', window, before, p, err, sc.Window(), sc.reader.events,
          EndBytes(events));
      }
      ps := ps + [p];
    }
    if EndsCleanly(events) {
      RunEnds(sc.formats, prev, s, ps, err, sc.prevPktValid, sc.Window(), EndBytes(events), EndBytes(sc.reader.events));
    }
  }

  /** The results so far, and what remains to be scanned, make up the segmentation of `s`. */
  ghost predicate SegmentedSoFar(fs: seq<Format>, prev: bool, s: seq<byte>, ps: seq<Packet>, err: ReadError,
    prev': bool, rest: seq<byte>, endBytes: seq<byte>, endBytes': seq<byte>)
  {
    if err == NoError then
      Tokens(fs, prev, s) == Flat(ps) + Tokens(fs, prev', rest) && (endBytes' == [] <==> endBytes == [])
    else
      (rest == [] <==> endBytes == []) && (rest == [] ==> Tokens(fs, prev, s) == Flat(ps))
  }

  lemma SegmentStart(fs: seq<Format>, prev: bool, s: seq<byte>, endBytes: seq<byte>)
    ensures SegmentedSoFar(fs, prev, s, [], NoError, prev, s, endBytes, endBytes)
  {
    hide Tokens;
  }

  lemma RunEnds(fs: seq<Format>, prev: bool, s: seq<byte>, ps: seq<Packet>, err: ReadError,
    prev': bool, rest: seq<byte>, endBytes: seq<byte>, endBytes': seq<byte>)
    requires SegmentedSoFar(fs, prev, s, ps, err, prev', rest, endBytes, endBytes') && err != NoError
    requires s == Data(ps) + rest
    ensures Flat(ps) == Tokens(fs, prev, s) <==> endBytes == []
    ensures endBytes == [] ==> Joined(ps) == JoinedTokens(Tokens(fs, prev, s))
  {
    hide Tokens;
    if Flat(ps) == Tokens(fs, prev, s) {
      IncompleteRun(fs, prev, s, ps, rest);
    }
    JoinedIsJoinedTokens(ps);
  }

  lemma SegmentStep(fs: seq<Format>, prev: bool, s: seq<byte>, ps: seq<Packet>, prev': bool, window: seq<byte>,
    before: seq<Event>, p: Packet, err: ReadError, rest: seq<byte>, after: seq<Event>, endBytes: seq<byte>)
    requires SegmentedSoFar(fs, prev, s, ps, NoError, prev', window, endBytes, EndBytes(before))
    requires EndsCleanly(before) && ScanResult(fs, prev', window, before, p, err, rest, after)
    ensures SegmentedSoFar(fs, prev, s, ps + [p], err, p.checksumValid, rest, endBytes, EndBytes(after))
  {
    hide Tokens, Flat, TokensOf, EndsCleanly, EndBytes, Rest, ScanResult;
    NextPieceFound(fs, prev', window, before, p, err, rest, after);
    FlatAppend(ps, p);
    if err == NoError {
      Sequences.Associates(Flat(ps), TokensOf(p), Tokens(fs, p.checksumValid, rest));
    }
  }

  lemma NextPieceFound(fs: seq<Format>, prev: bool, window: seq<byte>, before: seq<Event>, p: Packet, err: ReadError,
    rest: seq<byte>, after: seq<Event>)
    requires EndsCleanly(before) && ScanResult(fs, prev, window, before, p, err, rest, after)
    ensures NextPiece(fs, prev, window, p, err, rest, EndBytes(before), EndBytes(after), Rest(after))
  {
    hide Tokens, EndsCleanly, EndBytes, Rest, Starts, NextPiece;
  }

  /** A fresh scanner over a reader that ends cleanly yields the segmentation of what it delivers exactly when the end
      brings no bytes. */
  method ScanFresh(formats: seq<Format>, events: seq<Event>) returns (ps: seq<Packet>)
    requires EndsCleanly(events)
    ensures Flat(ps) == Tokens(formats, false, Rest(events)) <==> EndBytes(events) == []
  {
    hide Tokens, Flat, Rest, EndsCleanly, EndBytes;
    var r := new Reader(events);
    var sc := new Scanner(r, SCAN_BUF_SIZE, formats);
    assert sc.Window() == Rest(events);
    var err;
    ps, err := ScanAll(sc);
  }

  lemma ByteWithEnd(x: byte)
    ensures var events := [Event([x], EOF)];
      EndsCleanly(events) && Rest(events) == [x] && EndBytes(events) == [x]
  {
    assert [Event([x], EOF)][1..] == [];
  }

  lemma ByteBeforeEnd(x: byte)
    ensures var events := [Event([x], NoError), Event([], EOF)];
      EndsCleanly(events) && Rest(events) == [x] && EndBytes(events) == []
  {
    var events := [Event([x], NoError), Event([], EOF)];
    assert events[1..] == [Event([], EOF)] && events[1..][1..] == [];
    assert Rest(events[1..]) == [] + Rest([]) == [];
    assert [x] + [] == [x];
  }

  /** One byte read two ways: by a read that also reports the end of the stream, which loses it, and by one before. */
  method EndLosesItsBytes(formats: seq<Format>, x: byte) returns (ps: seq<Packet>, qs: seq<Packet>)
    ensures Flat(qs) == Tokens(formats, false, [x]) && Flat(ps) != Flat(qs)
  {
    hide *;
    ByteWithEnd(x);
    ByteBeforeEnd(x);
    ps := ScanFresh(formats, [Event([x], EOF)]);
    qs := ScanFresh(formats, [Event([x], NoError), Event([], EOF)]);
  }
}
