/** The packet-format contract of gps/gpsprot/packet.go: how a protocol recognises its packets byte by byte. */
module PacketFormats {
  newtype byte = x: int | 0 <= x < 256
  newtype ScanState = x: int | 0 <= x < 0x1_0000_0000

  const SYNC: ScanState := 0

  /** One protocol's packet format. A format is immutable and looks at nothing but the packet so far and the
      next byte; from the sync state it looks at the byte alone, which is why that step is a field of its own. */
  datatype Format = Format(
    tag: string,
    start: byte -> ScanState,
    step: (ScanState, seq<byte>, byte) -> ScanState,
    isFinal: ScanState -> bool,
    extractChecksum: seq<byte> -> seq<byte>,
    computeChecksum: seq<byte> -> seq<byte>,
    rescanOnBadChecksum: (bool, seq<byte>) -> bool)
  {
    function Next(state: ScanState, soFar: seq<byte>, b: byte): ScanState {
      if state == SYNC then start(b) else step(state, soFar, b)
    }

    predicate ChecksumValid(pkt: seq<byte>) {
      extractChecksum(pkt) == computeChecksum(pkt)
    }

    /** The state reached from sync after all of `s`. */
    function StateAfter(s: seq<byte>): ScanState {
      if s == [] then SYNC
      else Next(StateAfter(s[..|s| - 1]), s[..|s| - 1], s[|s| - 1])
    }

    /** The format has not given up on `s`: no nonempty prefix takes it back to sync. */
    ghost predicate Alive(s: seq<byte>) {
      forall n :: 1 <= n <= |s| ==> StateAfter(s[..n]) != SYNC
    }

    /** `s` is a whole packet of this format. */
    ghost predicate ValidPacket(s: seq<byte>) {
      Alive(s) && isFinal(StateAfter(s))
    }

    lemma StateAfterExtend(s: seq<byte>, n: nat)
      requires n < |s|
      ensures StateAfter(s[..n + 1]) == Next(StateAfter(s[..n]), s[..n], s[n])
    {
      var t := s[..n + 1];
      assert t[..|t| - 1] == s[..n];
    }

    lemma AlivePrefix(s: seq<byte>, n: nat)
      requires n <= |s|
      ensures Alive(s) ==> Alive(s[..n])
      ensures Alive(s[..n]) <==> forall m :: 1 <= m <= n ==> StateAfter(s[..m]) != SYNC
    {
      assert forall m :: 1 <= m <= n ==> s[..n][..m] == s[..m];
    }

    lemma AliveExtend(s: seq<byte>, n: nat)
      requires n < |s|
      ensures Alive(s[..n + 1]) <==> Alive(s[..n]) && Next(StateAfter(s[..n]), s[..n], s[n]) != SYNC
    {
      StateAfterExtend(s, n);
      AlivePrefix(s, n);
      AlivePrefix(s, n + 1);
    }
  }

  method IsValidPacket(pf: Format, buf: seq<byte>) returns (ok: bool)
    ensures ok <==> pf.ValidPacket(buf)
  {
    var state := SYNC;
    for i := 0 to |buf|
      invariant state == pf.StateAfter(buf[..i]) && pf.Alive(buf[..i])
    {
      pf.StateAfterExtend(buf, i);
      pf.AliveExtend(buf, i);
      state := pf.Next(state, buf[..i], buf[i]);
      if state == SYNC {
        pf.AlivePrefix(buf, i + 1);
        return false;
      }
    }
    assert buf[..|buf|] == buf;
    return pf.isFinal(state);
  }
}
