/** What the scanner is for, stated on a whole byte stream: where its packets are, however it is read. */
module Segmentation {
  import opened PacketFormats

  /** A stream cut into recognised packets and bytes that belong to none. Adjacent invalid bytes are joined by
      being listed one by one. */
  datatype Token =
    | Junk(b: byte)
    | Recognised(fmt: nat, data: seq<byte>, ok: bool)

  /** What becomes of a candidate that starts at the first byte: some format completes it, every format that
      could start there has given up (the last of them after `n` bytes), or the stream ends first. */
  datatype Outcome = Complete(fmt: nat, n: nat) | Failed(n: nat) | Partial

  predicate Starts(fs: seq<Format>, b: byte) {
    exists i | 0 <= i < |fs| :: fs[i].start(b) != SYNC
  }

  /** Format `j` has taken the first `k` bytes and is in `state`, not yet final. */
  function Attempt(fs: seq<Format>, j: nat, state: ScanState, s: seq<byte>, k: nat): (o: Outcome)
    requires j < |fs| && 1 <= k <= |s|
    ensures o.Complete? ==> 1 < o.n <= |s| && j <= o.fmt < |fs|
    ensures o.Failed? ==> 1 <= o.n < |s|
    decreases |fs| - j, |s| - k
  {
    if k == |s| then Partial
    else
      var state' := fs[j].Next(state, s[..k], s[k]);
      if state' == SYNC then NextFormat(fs, j + 1, s, k)
      else if fs[j].isFinal(state') then Complete(j, k + 1)
      else Attempt(fs, j, state', s, k + 1)
  }

  /** The formats before `j` have given up, the last one after `k` bytes. */
  function NextFormat(fs: seq<Format>, j: nat, s: seq<byte>, k: nat): (o: Outcome)
    requires j <= |fs| && 1 <= k < |s|
    ensures o.Complete? ==> 1 < o.n <= |s| && j <= o.fmt < |fs|
    ensures o.Failed? ==> 1 <= o.n < |s|
    decreases |fs| - j, |s|
  {
    if j == |fs| then Failed(k)
    else if fs[j].start(s[0]) == SYNC then NextFormat(fs, j + 1, s, k)
    else Attempt(fs, j, fs[j].start(s[0]), s, 1)
  }

  /** The first format from `j` on that can start with `b`. */
  function FirstStart(fs: seq<Format>, j: nat, b: byte): (i: nat)
    requires j <= |fs|
    ensures j <= i <= |fs|
    ensures forall m :: j <= m < i ==> fs[m].start(b) == SYNC
    ensures i < |fs| ==> fs[i].start(b) != SYNC
    decreases |fs| - j
  {
    if j == |fs| || fs[j].start(b) != SYNC then j else FirstStart(fs, j + 1, b)
  }

  /** The fate of the candidate at the start of `s`. Only the first format to try may complete at once. */
  function Candidate(fs: seq<Format>, s: seq<byte>): (o: Outcome)
    requires s != [] && Starts(fs, s[0])
    ensures o.Complete? ==> 1 <= o.n <= |s| && o.fmt < |fs|
    ensures o.Failed? ==> 1 <= o.n < |s|
  {
    var j := FirstStart(fs, 0, s[0]);
    var state := fs[j].start(s[0]);
    if fs[j].isFinal(state) then Complete(j, 1) else Attempt(fs, j, state, s, 1)
  }

  /** How many bytes of an abandoned candidate of `n` bytes to give up: those before the next possible start. */
  function Restart(fs: seq<Format>, s: seq<byte>, i: nat, n: nat): (r: nat)
    requires 1 <= i <= n <= |s|
    ensures i <= r <= n
    ensures forall m :: i <= m < r ==> !Starts(fs, s[m])
    ensures r < n ==> Starts(fs, s[r])
    decreases n - i
  {
    if i == n || Starts(fs, s[i]) then i else Restart(fs, s, i + 1, n)
  }

  function JunkOf(s: seq<byte>): (ts: seq<Token>)
    ensures |ts| == |s|
  {
    seq(|s|, i requires 0 <= i < |s| => Junk(s[i]))
  }

  /** The segmentation of the whole stream `s`; `prev` says whether the packet before it was valid. */
  function Tokens(fs: seq<Format>, prev: bool, s: seq<byte>): seq<Token>
    decreases |s|
  {
    if s == [] then []
    else if !Starts(fs, s[0]) then JunkOf(s[..1]) + Tokens(fs, false, s[1..])
    else match Candidate(fs, s)
      case Partial => JunkOf(s)
      case Failed(n) => GiveUp(fs, s, n)
      case Complete(j, n) =>
        var ok := fs[j].ChecksumValid(s[..n]);
        if !ok && fs[j].rescanOnBadChecksum(prev, s[..n]) then GiveUp(fs, s, n)
        else [Recognised(j, s[..n], ok)] + Tokens(fs, ok, s[n..])
  }

  function GiveUp(fs: seq<Format>, s: seq<byte>, n: nat): seq<Token>
    requires 1 <= n <= |s|
    decreases |s|, 0
  {
    var r := Restart(fs, s, 1, n);
    JunkOf(s[..r]) + Tokens(fs, false, s[r..])
  }

  function TokenBytes(t: Token): seq<byte> {
    match t
    case Junk(b) => [b]
    case Recognised(_, data, _) => data
  }

  function Bytes(ts: seq<Token>): seq<byte> {
    if ts == [] then [] else TokenBytes(ts[0]) + Bytes(ts[1..])
  }
}
