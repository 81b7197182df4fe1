/** What the segmentation recognises, said without following the scanner's steps. */
module Recognition {
  import opened PacketFormats
  import opened Segmentation
  import ScanSteps

  /** The first format that can start the candidate may finish with its first byte; a later one, which is tried
      by going back, may not. */
  function LeastLength(fs: seq<Format>, s: seq<byte>, j: nat): nat
    requires s != []
  {
    if j == FirstStart(fs, 0, s[0]) then 1 else 2
  }

  /** Format `j` neither gives up nor finishes within the first `n` bytes. */
  ghost predicate KeepsGoing(fs: seq<Format>, s: seq<byte>, j: nat, n: nat)
    requires s != [] && j < |fs| && n <= |s|
  {
    && fs[j].Alive(s[..n])
    && forall m :: LeastLength(fs, s, j) <= m <= n ==> !fs[j].isFinal(fs[j].StateAfter(s[..m]))
  }

  /** Format `j` gives up on the byte after the first `n`. */
  ghost predicate GivesUpAt(fs: seq<Format>, s: seq<byte>, j: nat, n: nat)
    requires s != [] && j < |fs|
  {
    n < |s| && KeepsGoing(fs, s, j, n) && fs[j].Next(fs[j].StateAfter(s[..n]), s[..n], s[n]) == SYNC
  }

  ghost predicate GivesUp(fs: seq<Format>, s: seq<byte>, j: nat)
    requires s != [] && j < |fs|
  {
    exists n :: GivesUpAt(fs, s, j, n)
  }

  ghost predicate GivesUpBefore(fs: seq<Format>, s: seq<byte>, j: nat)
    requires s != [] && j <= |fs|
  {
    forall i :: 0 <= i < j ==> GivesUp(fs, s, i)
  }

  ghost predicate LastStart(fs: seq<Format>, b: byte, j: nat)
    requires j < |fs|
  {
    fs[j].start(b) != SYNC && forall i :: j < i < |fs| ==> fs[i].start(b) == SYNC
  }

  /** `o` describes the candidate at the start of `s`: formats take precedence in order, and the first one that
      does not give up decides, by its shortest valid packet or by the end of the stream. */
  ghost predicate Describes(fs: seq<Format>, s: seq<byte>, o: Outcome)
    requires s != []
  {
    match o
    case Complete(j, n) =>
      && j < |fs| && LeastLength(fs, s, j) <= n <= |s|
      && fs[j].ValidPacket(s[..n]) && KeepsGoing(fs, s, j, n - 1) && GivesUpBefore(fs, s, j)
    case Failed(n) =>
      && GivesUpBefore(fs, s, |fs|)
      && exists j :: 0 <= j < |fs| && GivesUpAt(fs, s, j, n) && LastStart(fs, s[0], j)
    case Partial =>
      exists j :: 0 <= j < |fs| && KeepsGoing(fs, s, j, |s|) && GivesUpBefore(fs, s, j)
  }

  lemma NotStartingGivesUp(fs: seq<Format>, s: seq<byte>, j: nat)
    requires s != [] && j < |fs| && fs[j].start(s[0]) == SYNC
    ensures GivesUp(fs, s, j)
  {
    assert GivesUpAt(fs, s, j, 0);
  }

  lemma {:induction false} AttemptDescribed(fs: seq<Format>, s: seq<byte>, j: nat, state: ScanState, k: nat)
    requires 1 <= k <= |s| && j < |fs| && fs[j].start(s[0]) != SYNC
    requires KeepsGoing(fs, s, j, k) && state == fs[j].StateAfter(s[..k]) && GivesUpBefore(fs, s, j)
    ensures Describes(fs, s, Attempt(fs, j, state, s, k))
    decreases |fs| - j, |s| - k
  {
    if k < |s| {
      fs[j].StateAfterExtend(s, k);
      fs[j].AliveExtend(s, k);
      var state' := fs[j].Next(state, s[..k], s[k]);
      if state' == SYNC {
        assert GivesUpAt(fs, s, j, k);
        NextFormatDescribed(fs, s, j + 1, k, j);
      } else if !fs[j].isFinal(state') {
        AttemptDescribed(fs, s, j, state', k + 1);
      }
    } else {
      assert s[..k] == s;
    }
  }

  lemma {:induction false} NextFormatDescribed(fs: seq<Format>, s: seq<byte>, j: nat, k: nat, last: nat)
    requires 1 <= k < |s| && last < j <= |fs| && fs[last].start(s[0]) != SYNC
    requires GivesUpAt(fs, s, last, k) && GivesUpBefore(fs, s, j)
    requires forall i :: last < i < j ==> fs[i].start(s[0]) == SYNC
    ensures Describes(fs, s, NextFormat(fs, j, s, k))
    decreases |fs| - j, |s|
  {
    if j < |fs| {
      if fs[j].start(s[0]) == SYNC {
        NotStartingGivesUp(fs, s, j);
        NextFormatDescribed(fs, s, j + 1, k, last);
      } else {
        ScanSteps.StartsWith(fs[j], s);
        assert FirstStart(fs, 0, s[0]) <= last;
        AttemptDescribed(fs, s, j, fs[j].start(s[0]), 1);
      }
    }
  }

  lemma CandidateDescribed(fs: seq<Format>, s: seq<byte>)
    requires s != [] && Starts(fs, s[0])
    ensures Describes(fs, s, Candidate(fs, s))
  {
    var j := FirstStart(fs, 0, s[0]);
    ScanSteps.StartsWith(fs[j], s);
    forall i | 0 <= i < j ensures GivesUp(fs, s, i) {
      NotStartingGivesUp(fs, s, i);
    }
    if !fs[j].isFinal(fs[j].start(s[0])) {
      AttemptDescribed(fs, s, j, fs[j].start(s[0]), 1);
    }
  }

  /** A format that gives up after `n` bytes is not alive on any longer prefix. */
  lemma DeadAfterGivingUp(fs: seq<Format>, s: seq<byte>, j: nat, n: nat, m: nat)
    requires s != [] && j < |fs| && GivesUpAt(fs, s, j, n) && n < m <= |s|
    ensures !fs[j].Alive(s[..m])
  {
    fs[j].AliveExtend(s, n);
    fs[j].AlivePrefix(s[..m], n + 1);
    assert s[..m][..n + 1] == s[..n + 1];
  }

  lemma OneFate(fs: seq<Format>, s: seq<byte>, j: nat, n: nat)
    requires s != [] && j < |fs| && GivesUpAt(fs, s, j, n)
    ensures !KeepsGoing(fs, s, j, |s|)
    ensures forall m :: LeastLength(fs, s, j) <= m <= |s| ==> !fs[j].ValidPacket(s[..m])
    ensures forall m :: GivesUpAt(fs, s, j, m) ==> m == n
  {
    forall m | n < m <= |s| ensures !fs[j].Alive(s[..m]) {
      DeadAfterGivingUp(fs, s, j, n, m);
    }
    forall m: nat | GivesUpAt(fs, s, j, m) ensures m == n {
      if m < n {
        DeadAfterGivingUp(fs, s, j, m, n);
      }
    }
    assert s[..|s|] == s;
  }

  /** The format that decides: the first one that does not give up, if there is one. */
  lemma Decider(fs: seq<Format>, s: seq<byte>, o: Outcome) returns (j: nat)
    requires s != [] && Describes(fs, s, o)
    ensures j <= |fs| && GivesUpBefore(fs, s, j) && (j < |fs| ==> !GivesUp(fs, s, j))
    ensures o.Failed? <==> j == |fs|
    ensures o.Complete? ==> o.fmt == j
    ensures o.Partial? ==> KeepsGoing(fs, s, j, |s|)
  {
    match o {
      case Complete(i, n) =>
        j := i;
      case Failed(n) =>
        return |fs|;
      case Partial =>
        j :| 0 <= j < |fs| && KeepsGoing(fs, s, j, |s|) && GivesUpBefore(fs, s, j);
    }
    forall n: nat | GivesUpAt(fs, s, j, n) ensures false {
      OneFate(fs, s, j, n);
    }
  }

  lemma TwoDescriptions(fs: seq<Format>, s: seq<byte>, o: Outcome, o': Outcome)
    requires s != [] && Describes(fs, s, o) && Describes(fs, s, o')
    ensures o == o'
  {
    var j := Decider(fs, s, o);
    var j' := Decider(fs, s, o');
    assert j == j';
    if o.Failed? {
      var i :| 0 <= i < |fs| && GivesUpAt(fs, s, i, o.n) && LastStart(fs, s[0], i);
      var i' :| 0 <= i' < |fs| && GivesUpAt(fs, s, i', o'.n) && LastStart(fs, s[0], i');
      assert i == i';
      OneFate(fs, s, i, o.n);
    } else {
      assert s[..|s|] == s;
    }
  }

  /** The description determines the candidate's fate, so the two say the same. */
  lemma DescriptionIsCandidate(fs: seq<Format>, s: seq<byte>, o: Outcome)
    requires s != [] && Starts(fs, s[0])
    ensures Describes(fs, s, o) <==> o == Candidate(fs, s)
  {
    CandidateDescribed(fs, s);
    if Describes(fs, s, o) {
      TwoDescriptions(fs, s, o, Candidate(fs, s));
    }
  }

  lemma BytesAppend(a: seq<Token>, b: seq<Token>)
    ensures Bytes(a + b) == Bytes(a) + Bytes(b)
  {
    if a == [] {
      assert a + b == b;
    } else {
      BytesAppend(a[1..], b);
      assert (a + b)[1..] == a[1..] + b;
    }
  }

  lemma BytesOfJunk(s: seq<byte>)
    ensures Bytes(JunkOf(s)) == s
  {
    if s != [] {
      BytesOfJunk(s[1..]);
      assert JunkOf(s)[1..] == JunkOf(s[1..]);
    }
  }

  /** The segmentation is a partition of the stream. */
  lemma {:induction false} TokensConserveBytes(fs: seq<Format>, prev: bool, s: seq<byte>)
    ensures Bytes(Tokens(fs, prev, s)) == s
    decreases |s|
  {
    hide Candidate, Bytes, JunkOf;
    if s == [] {
      BytesOfJunk(s);
      assert JunkOf(s) == [];
    } else if !Starts(fs, s[0]) {
      JunkThenTokens(fs, s, 1);
    } else {
      match Candidate(fs, s)
      case Partial => BytesOfJunk(s);
      case Failed(n) => JunkThenTokens(fs, s, Restart(fs, s, 1, n));
      case Complete(j, n) =>
        var ok := fs[j].ChecksumValid(s[..n]);
        if !ok && fs[j].rescanOnBadChecksum(prev, s[..n]) {
          JunkThenTokens(fs, s, Restart(fs, s, 1, n));
        } else {
          PacketThenTokens(fs, s, j, ok, n);
        }
    }
  }

  lemma {:induction false} PacketThenTokens(fs: seq<Format>, s: seq<byte>, j: nat, ok: bool, n: nat)
    requires 1 <= n <= |s|
    ensures Bytes([Recognised(j, s[..n], ok)] + Tokens(fs, ok, s[n..])) == s
    decreases |s|, 0
  {
    hide Tokens;
    TokensConserveBytes(fs, ok, s[n..]);
    var tail := Tokens(fs, ok, s[n..]);
    assert ([Recognised(j, s[..n], ok)] + tail)[1..] == tail;
  }

  lemma {:induction false} JunkThenTokens(fs: seq<Format>, s: seq<byte>, r: nat)
    requires 1 <= r <= |s|
    ensures Bytes(JunkOf(s[..r]) + Tokens(fs, false, s[r..])) == s
    decreases |s|, 0
  {
    hide Tokens;
    TokensConserveBytes(fs, false, s[r..]);
    BytesOfJunk(s[..r]);
    BytesAppend(JunkOf(s[..r]), Tokens(fs, false, s[r..]));
  }

  /** Everything recognised anywhere in the stream is a whole packet of its format, with the right verdict. */
  ghost predicate SoundToken(fs: seq<Format>, t: Token) {
    t.Recognised? ==> t.fmt < |fs| && fs[t.fmt].ValidPacket(t.data) && t.ok == fs[t.fmt].ChecksumValid(t.data)
  }

  lemma {:induction false} TokensSound(fs: seq<Format>, prev: bool, s: seq<byte>)
    ensures forall t :: t in Tokens(fs, prev, s) ==> SoundToken(fs, t)
    decreases |s|
  {
    if s == [] {
    } else if !Starts(fs, s[0]) {
      TokensSound(fs, false, s[1..]);
    } else {
      CandidateDescribed(fs, s);
      match Candidate(fs, s)
      case Partial =>
      case Failed(n) => TokensSound(fs, false, s[Restart(fs, s, 1, n)..]);
      case Complete(j, n) =>
        TokensSound(fs, false, s[Restart(fs, s, 1, n)..]);
        TokensSound(fs, fs[j].ChecksumValid(s[..n]), s[n..]);
    }
  }

  /** A format that starts on 7 and takes nothing more; its one byte is a packet if `whole`. */
  function SevenFormat(whole: bool): Format {
    Format("seven", b => if b == 7 then 1 else SYNC, (_, _, _) => SYNC, state => whole && state == 1,
      _ => [], _ => [], (_, _) => false)
  }

  /** A packet of one byte is missed if its format comes after another that starts with that byte and gives up. */
  lemma OneBytePacketMissed() returns (fs: seq<Format>, s: seq<byte>)
    ensures |fs| == 2 && s != [] && Starts(fs, s[0])
    ensures fs[1].ValidPacket(s[..1]) && GivesUp(fs, s, 0) && Candidate(fs, s) == Failed(1)
  {
    fs, s := [SevenFormat(false), SevenFormat(true)], [7, 7];
    ScanSteps.StartsWith(fs[0], s);
    ScanSteps.StartsWith(fs[1], s);
    fs[0].StateAfterExtend(s, 1);
    assert FirstStart(fs, 0, s[0]) == 0;
    assert GivesUpAt(fs, s, 0, 1);
    assert Attempt(fs, 1, 1, s, 1) == NextFormat(fs, 2, s, 1) == Failed(1);
  }
}
