/** How one step of the scanner moves through the segmentation of the stream it is reading. */
module ScanSteps {
  import opened PacketFormats
  import opened Segmentation

  /** The first `k` bytes of `s` are invalid, and the rest is segmented as if it stood alone. */
  ghost predicate Skipped(fs: seq<Format>, prev: bool, s: seq<byte>, k: nat) {
    && k <= |s|
    && Tokens(fs, prev, s) == JunkOf(s[..k]) + Tokens(fs, k == 0 && prev, s[k..])
    && forall m :: 1 <= m < k ==> !Starts(fs, s[m])
  }

  /** Format `j` has taken the first `k` bytes of `s`, and the formats before it have given up on them. */
  ghost predicate Tries(fs: seq<Format>, s: seq<byte>, j: nat, state: ScanState, k: nat) {
    && 1 <= k <= |s| && j < |fs| && state != SYNC
    && Starts(fs, s[0])
    && Candidate(fs, s) == Attempt(fs, j, state, s, k)
    && state == fs[j].StateAfter(s[..k])
    && fs[j].Alive(s[..k])
  }

  /** The bytes begin a candidate whose fate they leave open. */
  ghost predicate Open(fs: seq<Format>, s: seq<byte>) {
    s != [] && Starts(fs, s[0]) && Candidate(fs, s) == Partial
  }

  /** Of the stream `s` only the first `seen` bytes have been read: they alone put format `j` where it is. */
  ghost predicate Trying(fs: seq<Format>, s: seq<byte>, seen: nat, j: nat, state: ScanState, k: nat) {
    && 1 <= k <= seen <= |s| && j < |fs| && Starts(fs, s[0])
    && forall t :: seen <= t <= |s| ==> Tries(fs, s[..t], j, state, k)
  }

  /** The bytes read leave nothing open about the candidate at the start of `s`, if there is one. */
  ghost predicate Decided(fs: seq<Format>, s: seq<byte>, seen: nat) {
    forall t :: seen <= t <= |s| ==> !Open(fs, s[..t])
  }

  /** Format `j` completes the candidate at the start of `s` with `k` bytes. */
  ghost predicate Completes(fs: seq<Format>, s: seq<byte>, j: nat, k: nat) {
    && s != [] && Starts(fs, s[0]) && Candidate(fs, s) == Complete(j, k) && fs[j].ValidPacket(s[..k])
  }

  /** The first `k` bytes of `s` are a packet of format `j`, and the rest is segmented after it. */
  ghost predicate IsPacket(fs: seq<Format>, prev: bool, s: seq<byte>, j: nat, ok: bool, k: nat) {
    && j < |fs| && k <= |s| && fs[j].ValidPacket(s[..k]) && ok == fs[j].ChecksumValid(s[..k])
    && Tokens(fs, prev, s) == [Recognised(j, s[..k], ok)] + Tokens(fs, ok, s[k..])
  }

  /** The candidate at the start of `s` must be given up after `n` bytes: every format failed, or the one that
      completed it has a bad checksum and wants a rescan. */
  ghost predicate MustGiveUp(fs: seq<Format>, prev: bool, s: seq<byte>, n: nat) {
    && s != [] && Starts(fs, s[0]) && 1 <= n <= |s|
    && Tokens(fs, prev, s) == GiveUp(fs, s, n)
  }

  lemma SkipNone(fs: seq<Format>, prev: bool, s: seq<byte>)
    ensures Skipped(fs, prev, s, 0)
  {
    assert s[0..] == s;
  }

  lemma SkipByte(fs: seq<Format>, prev: bool, s: seq<byte>, k: nat)
    requires Skipped(fs, prev, s, k) && k < |s| && !Starts(fs, s[k])
    ensures Skipped(fs, prev, s, k + 1)
  {
    var t, tail := s[k..], Tokens(fs, false, s[k + 1..]);
    calc {
      Tokens(fs, prev, s);
      JunkOf(s[..k]) + Tokens(fs, k == 0 && prev, t);
      { assert t[1..] == s[k + 1..]; }
      JunkOf(s[..k]) + (JunkOf(t[..1]) + tail);
      { assert JunkOf(s[..k]) + JunkOf(t[..1]) == JunkOf(s[..k + 1]); }
      JunkOf(s[..k + 1]) + tail;
    }
  }

  lemma StartsWith(f: Format, s: seq<byte>)
    requires s != []
    ensures f.StateAfter(s[..1]) == f.start(s[0])
    ensures f.Alive(s[..1]) <==> f.start(s[0]) != SYNC
  {
    f.StateAfterExtend(s, 0);
    f.AliveExtend(s, 0);
  }

  lemma BeginTries(fs: seq<Format>, s: seq<byte>, j: nat)
    requires s != [] && j == FirstStart(fs, 0, s[0]) && j < |fs|
    ensures Starts(fs, s[0])
    ensures var state := fs[j].start(s[0]);
      if fs[j].isFinal(state) then Completes(fs, s, j, 1)
      else Tries(fs, s, j, state, 1)
  {
    StartsWith(fs[j], s);
  }

  lemma BeginCandidate(fs: seq<Format>, s: seq<byte>, seen: nat, j: nat)
    requires 0 < seen <= |s| && j == FirstStart(fs, 0, s[0]) && j < |fs|
    ensures var state := fs[j].start(s[0]);
      if fs[j].isFinal(state) then Completes(fs, s, j, 1) && Decided(fs, s, seen)
      else Trying(fs, s, seen, j, state, 1)
  {
    hide Tries, Attempt, FirstStart;
    assert s[..|s|] == s;
    BeginTries(fs, s, j);
    forall t | seen <= t <= |s|
      ensures var state := fs[j].start(s[0]);
        if fs[j].isFinal(state) then !Open(fs, s[..t]) else Tries(fs, s[..t], j, state, 1)
    {
      BeginTries(fs, s[..t], j);
    }
  }

  lemma TryNext(fs: seq<Format>, s: seq<byte>, j: nat, state: ScanState, k: nat)
    requires Tries(fs, s, j, state, k) && k < |s|
    ensures var state' := fs[j].Next(state, s[..k], s[k]);
      if state' == SYNC then Candidate(fs, s) == NextFormat(fs, j + 1, s, k)
      else if fs[j].isFinal(state') then Completes(fs, s, j, k + 1)
      else Tries(fs, s, j, state', k + 1)
  {
    fs[j].StateAfterExtend(s, k);
    fs[j].AliveExtend(s, k);
  }

  /** Format `j` takes the next byte, or gives up on it; then another may be tried on the first byte. */
  lemma TryByte(fs: seq<Format>, prev: bool, s: seq<byte>, seen: nat, j: nat, state: ScanState, k: nat)
    requires Trying(fs, s, seen, j, state, k) && k < seen
    ensures var state' := fs[j].Next(state, s[..k], s[k]); var i := FirstStart(fs, j + 1, s[0]);
      if state' == SYNC then
        if i == |fs| then
          Starts(fs, s[0]) && Candidate(fs, s) == Failed(k) && MustGiveUp(fs, prev, s, k) && Decided(fs, s, seen)
        else Trying(fs, s, seen, i, fs[i].start(s[0]), 1)
      else if fs[j].isFinal(state') then Completes(fs, s, j, k + 1) && Decided(fs, s, seen)
      else Trying(fs, s, seen, j, state', k + 1)
  {
    hide Attempt, Tokens;
    var state', i := fs[j].Next(state, s[..k], s[k]), FirstStart(fs, j + 1, s[0]);
    forall t | seen <= t <= |s|
      ensures var p := s[..t];
        if state' == SYNC then
          if i == |fs| then Candidate(fs, p) == Failed(k) && MustGiveUp(fs, prev, p, k)
          else Tries(fs, p, i, fs[i].start(s[0]), 1)
        else if fs[j].isFinal(state') then Completes(fs, p, j, k + 1)
        else Tries(fs, p, j, state', k + 1)
    {
      assert s[..t][..k] == s[..k] && s[..t][k] == s[k] && s[..t][0] == s[0];
      TryNext(fs, s[..t], j, state, k);
      if state' == SYNC {
        SwitchFormat(fs, prev, s[..t], j, k);
      }
    }
    assert s[..|s|] == s;
  }

  /** Invalid data that no packet could start with, or that was given up, stays so. */
  lemma NeverOpen(fs: seq<Format>, s: seq<byte>, seen: nat, k: nat)
    requires k < seen <= |s| && if k == 0 then !Starts(fs, s[0]) else Decided(fs, s, seen)
    ensures Decided(fs, s, seen)
  {
    forall t | seen <= t <= |s| ensures !Open(fs, s[..t]) {
      assert k == 0 ==> s[..t][0] == s[0];
    }
  }

  /** Reading more leaves things as they are. */
  lemma ReadingOn(fs: seq<Format>, s: seq<byte>, seen: nat, seen': nat, j: nat, state: ScanState, k: nat)
    requires seen <= seen' <= |s|
    ensures Decided(fs, s, seen) ==> Decided(fs, s, seen')
    ensures Trying(fs, s, seen, j, state, k) ==> Trying(fs, s, seen', j, state, k)
  {
  }

  /** A format that has taken all the bytes read has a candidate that is open. */
  lemma TryingIsOpen(fs: seq<Format>, s: seq<byte>, j: nat, state: ScanState, k: nat)
    requires Trying(fs, s, k, j, state, k)
    ensures Open(fs, s[..k])
  {
    assert Tries(fs, s[..k], j, state, k);
  }

  lemma NextFormatIsFirstStart(fs: seq<Format>, j: nat, s: seq<byte>, k: nat)
    requires j <= |fs| && 1 <= k < |s|
    ensures var i := FirstStart(fs, j, s[0]);
      NextFormat(fs, j, s, k) == if i == |fs| then Failed(k) else Attempt(fs, i, fs[i].start(s[0]), s, 1)
    decreases |fs| - j
  {
  }

  /** Once all the bytes read have been scanned, they leave a candidate open exactly if a format is being tried. */
  lemma OpenWhenTrying(fs: seq<Format>, s: seq<byte>, j: nat, state: ScanState, k: nat)
    requires k <= |s| && if state == SYNC then k > 0 ==> Decided(fs, s, k) else Trying(fs, s, k, j, state, k)
    ensures Open(fs, s[..k]) <==> state != SYNC
  {
    if state != SYNC {
      TryingIsOpen(fs, s, j, state, k);
    }
  }

  lemma SwitchFormat(fs: seq<Format>, prev: bool, s: seq<byte>, j: nat, k: nat)
    requires j < |fs| && 1 <= k < |s| && Starts(fs, s[0])
    requires Candidate(fs, s) == NextFormat(fs, j + 1, s, k)
    ensures var i := FirstStart(fs, j + 1, s[0]);
      if i == |fs| then Candidate(fs, s) == Failed(k) && MustGiveUp(fs, prev, s, k)
      else Tries(fs, s, i, fs[i].start(s[0]), 1)
  {
    var i := FirstStart(fs, j + 1, s[0]);
    NextFormatIsFirstStart(fs, j + 1, s, k);
    if i < |fs| {
      StartsWith(fs[i], s);
    }
  }

  lemma RestartIs(fs: seq<Format>, s: seq<byte>, i: nat, n: nat, r: nat)
    requires 1 <= i <= r <= n <= |s|
    requires forall m :: i <= m < r ==> !Starts(fs, s[m])
    requires r < n ==> Starts(fs, s[r])
    ensures r == Restart(fs, s, i, n)
  {
  }

  lemma GiveUpSkips(fs: seq<Format>, prev: bool, s: seq<byte>, n: nat, r: nat)
    requires MustGiveUp(fs, prev, s, n) && r == Restart(fs, s, 1, n)
    ensures Skipped(fs, prev, s, r)
  {
  }

  lemma PacketComplete(fs: seq<Format>, prev: bool, s: seq<byte>, j: nat, n: nat)
    requires Completes(fs, s, j, n)
    ensures var ok := fs[j].ChecksumValid(s[..n]);
      if !ok && fs[j].rescanOnBadChecksum(prev, s[..n]) then MustGiveUp(fs, prev, s, n)
      else IsPacket(fs, prev, s, j, ok, n)
  {
  }

  lemma StreamEnds(fs: seq<Format>, prev: bool, s: seq<byte>, j: nat, state: ScanState)
    requires Skipped(fs, prev, s, |s|) || Trying(fs, s, |s|, j, state, |s|)
    ensures Tokens(fs, prev, s) == JunkOf(s)
  {
    assert s[..|s|] == s;
    if Trying(fs, s, |s|, j, state, |s|) {
      TryingIsOpen(fs, s, j, state, |s|);
    }
    assert JunkOf(s) + [] == JunkOf(s);
  }
}
