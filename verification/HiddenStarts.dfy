/** Invalid data hides no packet: what the segmentation of a whole stream does with every byte that could start one. */
module HiddenStarts {
  import opened PacketFormats
  import opened Segmentation
  import Recognition

  /** Where token `i` of a segmentation begins in the stream. */
  function Offset(ts: seq<Token>, i: nat): nat
    requires i <= |ts|
  {
    |Bytes(ts[..i])|
  }

  /** The candidate at the start of `s` cannot be a packet: every format gives up on it, or the one that completes it
      finds a bad checksum and wants a rescan. */
  ghost predicate MustFail(fs: seq<Format>, s: seq<byte>) {
    && s != [] && Starts(fs, s[0])
    && match Candidate(fs, s)
      case Failed(_) => true
      case Complete(j, n) =>
        !fs[j].ChecksumValid(s[..n]) && exists prev: bool :: fs[j].rescanOnBadChecksum(prev, s[..n])
      case Partial => false
  }

  /** The stream ends inside the candidate that starts at `o`. */
  predicate EndsInside(fs: seq<Format>, s: seq<byte>, o: nat) {
    o < |s| && Starts(fs, s[o]) && Candidate(fs, s[o..]) == Partial
  }

  /** The byte at `o` is `b`, and if a packet could start there, that candidate must fail or the stream ends inside
      it or a candidate before it. */
  ghost predicate NotHidden(fs: seq<Format>, s: seq<byte>, o: nat, b: byte) {
    && o < |s| && s[o] == b
    && (Starts(fs, b) ==> MustFail(fs, s[o..]) || exists o': nat :: o' <= o && EndsInside(fs, s, o'))
  }

  lemma OffsetAfterJunk(s: seq<byte>, rest: seq<Token>, i: nat)
    requires i <= |s| + |rest|
    ensures i <= |s| ==> Offset(JunkOf(s) + rest, i) == i
    ensures i >= |s| ==> Offset(JunkOf(s) + rest, i) == |s| + Offset(rest, i - |s|)
  {
    if i <= |s| {
      assert (JunkOf(s) + rest)[..i] == JunkOf(s[..i]);
      Recognition.BytesOfJunk(s[..i]);
    }
    if i >= |s| {
      assert (JunkOf(s) + rest)[..i] == JunkOf(s) + rest[..i - |s|];
      Recognition.BytesAppend(JunkOf(s), rest[..i - |s|]);
      Recognition.BytesOfJunk(s);
    }
  }

  lemma OffsetAfterPacket(t: Token, rest: seq<Token>, i: nat)
    requires 1 <= i <= 1 + |rest|
    ensures Offset([t] + rest, i) == |TokenBytes(t)| + Offset(rest, i - 1)
  {
    var ts := ([t] + rest)[..i];
    assert ts[0] == t && ts[1..] == rest[..i - 1];
  }

  lemma NotHiddenFurther(fs: seq<Format>, s: seq<byte>, n: nat, o: nat, b: byte)
    requires n <= |s| && NotHidden(fs, s[n..], o, b)
    ensures NotHidden(fs, s, n + o, b)
  {
    assert s[n..][o..] == s[n + o..];
    if o': nat :| o' <= o && EndsInside(fs, s[n..], o') {
      assert s[n..][o'..] == s[n + o'..];
      assert EndsInside(fs, s, n + o');
    }
  }

  /** No invalid byte of a segmented stream is a possible start that was passed over: a packet that starts there
      must fail, or the end of the stream leaves it open. */
  lemma {:induction false} JunkHidesNoStart(fs: seq<Format>, prev: bool, s: seq<byte>, i: nat)
    requires i < |Tokens(fs, prev, s)| && Tokens(fs, prev, s)[i].Junk?
    ensures NotHidden(fs, s, Offset(Tokens(fs, prev, s), i), Tokens(fs, prev, s)[i].b)
    decreases |s|
  {
    hide Candidate, Bytes, NotHidden, JunkOf, Offset;
    if !Starts(fs, s[0]) {
      InvalidRunHidesNoStart(fs, s, 1, i);
    } else {
      match Candidate(fs, s)
      case Partial => OpenEndHidesNoStart(fs, s, i);
      case Failed(n) => InvalidRunHidesNoStart(fs, s, Restart(fs, s, 1, n), i);
      case Complete(j, n) =>
        var ok := fs[j].ChecksumValid(s[..n]);
        if !ok && fs[j].rescanOnBadChecksum(prev, s[..n]) {
          InvalidRunHidesNoStart(fs, s, Restart(fs, s, 1, n), i);
        } else {
          var rest := Tokens(fs, ok, s[n..]);
          OffsetAfterPacket(Recognised(j, s[..n], ok), rest, i);
          JunkHidesNoStart(fs, ok, s[n..], i - 1);
          NotHiddenFurther(fs, s, n, Offset(rest, i - 1), rest[i - 1].b);
        }
    }
  }

  lemma {:induction false} InvalidRunHidesNoStart(fs: seq<Format>, s: seq<byte>, r: nat, i: nat)
    requires 1 <= r <= |s| && (Starts(fs, s[0]) ==> MustFail(fs, s))
    requires forall m :: 1 <= m < r ==> !Starts(fs, s[m])
    requires var ts := JunkOf(s[..r]) + Tokens(fs, false, s[r..]); i < |ts| && ts[i].Junk?
    ensures var ts := JunkOf(s[..r]) + Tokens(fs, false, s[r..]); NotHidden(fs, s, Offset(ts, i), ts[i].b)
    decreases |s|, 0
  {
    hide Tokens, Candidate, Bytes, Offset, MustFail, NotHidden, Starts;
    var rest := Tokens(fs, false, s[r..]);
    OffsetAfterJunk(s[..r], rest, i);
    if i >= r {
      JunkHidesNoStart(fs, false, s[r..], i - r);
      NotHiddenFurther(fs, s, r, Offset(rest, i - r), rest[i - r].b);
    } else {
      InvalidByteHidesNoStart(fs, s, i);
    }
  }

  lemma InvalidByteHidesNoStart(fs: seq<Format>, s: seq<byte>, i: nat)
    requires i < |s| && (Starts(fs, s[i]) ==> i == 0 && MustFail(fs, s))
    ensures NotHidden(fs, s, i, s[i])
  {
    hide Starts, MustFail;
    assert s[0..] == s;
  }

  lemma OpenEndHidesNoStart(fs: seq<Format>, s: seq<byte>, i: nat)
    requires i < |s| && Starts(fs, s[0]) && Candidate(fs, s) == Partial
    ensures NotHidden(fs, s, Offset(JunkOf(s), i), JunkOf(s)[i].b)
  {
    OffsetAfterJunk(s, [], i);
    assert JunkOf(s) + [] == JunkOf(s);
    assert s[0..] == s && EndsInside(fs, s, 0);
  }
}
