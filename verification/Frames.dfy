/**
 Length-prefixed frames of gRPC-Web: one flag byte, four length bytes, the payload.
 */
module Frames {
  import opened Wrappers
  import opened Bytes

  const MAX_PAYLOAD: nat := 0x1_0000_0000

  datatype Frame = Frame(flag: Byte, payload: seq<Byte>)

  function Wire(f: Frame): (s: seq<Byte>)
    ensures |s| == 5 + |f.payload|
  {
    [f.flag] + ToBig(|f.payload|, 4) + f.payload
  }

  /// Where a reader of the wire finds what: the flag first, the length with its high byte
  /// first, then the payload.
  lemma WireLayout(f: Frame)
    requires |f.payload| < 0x1_0000_0000
    ensures var s := Wire(f);
            && s[0] == f.flag && s[5..] == f.payload
            && 0x100_0000 * (s[1] as int) + 0x1_0000 * (s[2] as int) + 0x100 * (s[3] as int) + (s[4] as int) == |f.payload|
  {
    var s := Wire(f);
    var a := s[1..5];
    assert Power(1) == 256 && Power(2) == 0x1_0000 && Power(3) == 0x100_0000 && Power(4) == 0x1_0000_0000;
    assert a == ToBig(|f.payload|, 4);
    assert FromBig(a) == |f.payload|;
    assert a[..3][..2] == a[..2] && a[..2][..1] == a[..1] && a[..1][..0] == [];
    assert FromBig(a[..1]) == s[1];
    assert FromBig(a[..2]) == 256 * (s[1] as int) + (s[2] as int);
    assert FromBig(a[..3]) == 256 * (256 * (s[1] as int) + (s[2] as int)) + (s[3] as int);
  }

  /// _grpc_frame: a data frame; a payload whose length does not fit four bytes is refused.
  function GrpcFrame(data: seq<Byte>): Option<seq<Byte>> {
    if |data| >= MAX_PAYLOAD then None else Some(Wire(Frame(0, data)))
  }

  function Concat(frames: seq<Frame>): seq<Byte> {
    if frames == [] then [] else Wire(frames[0]) + Concat(frames[1..])
  }

  function Take(s: seq<Byte>, n: nat): seq<Byte> {
    if n <= |s| then s[..n] else s
  }

  function Drop(s: seq<Byte>, n: nat): seq<Byte> {
    if n <= |s| then s[n..] else []
  }

  /// The frames of a body; the last one may be cut short.
  function FramesOf(body: seq<Byte>): seq<Frame>
    decreases |body|
  {
    if |body| < 5 then []
    else
      var length := FromBig(body[1..5]);
      [Frame(body[0], Take(body[5..], length))] + FramesOf(Drop(body[5..], length))
  }

  /// The top bit of the flag marks a trailer.
  function Seen(f: Frame): (bool, seq<Byte>) {
    (f.flag >= 0x80, f.payload)
  }

  function AllSeen(frames: seq<Frame>): seq<(bool, seq<Byte>)> {
    seq(|frames|, n requires 0 <= n < |frames| => Seen(frames[n]))
  }

  lemma NextFrame(body: seq<Byte>, idx: nat)
    requires idx + 5 <= |body|
    ensures var length := FromBig(body[idx + 1..idx + 5]);
            FramesOf(Drop(body, idx)) == [Frame(body[idx], Take(body[idx + 5..], length))] + FramesOf(Drop(body, idx + 5 + length))
  {
    hide FromBig;
    var left := Drop(body, idx);
    assert left[1..5] == body[idx + 1..idx + 5] && left[5..] == body[idx + 5..];
    var length := FromBig(body[idx + 1..idx + 5]);
    assert Drop(left[5..], length) == Drop(body, idx + 5 + length);
  }

  /// _parse_frames: ends on every byte string.
  method ParseFrames(body: seq<Byte>) returns (frames: seq<(bool, seq<Byte>)>)
    ensures frames == AllSeen(FramesOf(body))
  {
    hide FromBig, Take, FramesOf;
    frames := [];
    ghost var done: seq<Frame> := [];
    var idx: nat := 0;
    while idx + 5 <= |body|
      invariant frames == AllSeen(done)
      invariant done + FramesOf(Drop(body, idx)) == FramesOf(body)
      decreases |body| - idx
    {
      NextFrame(body, idx);
      var flag := body[idx];
      var length := FromBig(body[idx + 1..idx + 5]);
      idx := idx + 5;
      var payload := Take(body[idx..], length);
      idx := idx + length;
      done := done + [Frame(flag, payload)];
      frames := frames + [(flag >= 0x80, payload)];
    }
    NoFrames(Drop(body, idx));
  }

  lemma NoFrames(rest: seq<Byte>)
    requires |rest| < 5
    ensures FramesOf(rest) == []
  {
  }

  ghost predicate Sendable(frames: seq<Frame>) {
    forall n :: 0 <= n < |frames| ==> |frames[n].payload| < MAX_PAYLOAD
  }

  lemma PowerOfFour()
    ensures Power(4) == MAX_PAYLOAD
  {
    assert Power(1) == 256 && Power(2) == 0x1_0000 && Power(3) == 0x100_0000;
  }

  lemma HeadFrame(f: Frame, rest: seq<Byte>)
    requires |f.payload| < MAX_PAYLOAD
    ensures FramesOf(Wire(f) + rest) == [f] + FramesOf(rest)
  {
    hide FromBig, ToBig, Power;
    PowerOfFour();
    var body := Wire(f) + rest;
    assert body[1..5] == ToBig(|f.payload|, 4);
    assert body[5..] == f.payload + rest;
    assert Take(body[5..], |f.payload|) == f.payload;
    assert Drop(body[5..], |f.payload|) == rest;
  }

  /// Any list of frames comes back from their concatenation in order, followed by whatever
  /// the bytes after them parse to.
  lemma {:induction false} FramesRoundTrip(frames: seq<Frame>, rest: seq<Byte>)
    requires Sendable(frames)
    ensures FramesOf(Concat(frames) + rest) == frames + FramesOf(rest)
  {
    hide FramesOf, Wire;
    if frames == [] {
      assert Concat(frames) + rest == rest;
    } else {
      FramesRoundTrip(frames[1..], rest);
      assert Concat(frames) + rest == Wire(frames[0]) + (Concat(frames[1..]) + rest);
      HeadFrame(frames[0], Concat(frames[1..]) + rest);
      assert frames == [frames[0]] + frames[1..];
      assert [frames[0]] + (frames[1..] + FramesOf(rest)) == frames + FramesOf(rest);
    }
  }

  /// So a reader sees exactly the payloads sent, in order, with their trailer flags.
  lemma PayloadsArrive(frames: seq<Frame>)
    requires Sendable(frames)
    ensures AllSeen(FramesOf(Concat(frames))) == AllSeen(frames)
  {
    FramesRoundTrip(frames, []);
    assert Concat(frames) + [] == Concat(frames);
  }

  /// What the client frames it reads back as one message, and only what is too long for four
  /// length bytes it cannot frame.
  lemma MessageArrives(data: seq<Byte>)
    ensures GrpcFrame(data).None? <==> |data| >= MAX_PAYLOAD
    ensures GrpcFrame(data).Some? ==> AllSeen(FramesOf(GrpcFrame(data).value)) == [(false, data)]
  {
    hide FramesOf, Wire;
    if |data| < MAX_PAYLOAD {
      HeadFrame(Frame(0, data), []);
      NoFrames([]);
      assert Wire(Frame(0, data)) + [] == Wire(Frame(0, data));
    }
  }

  /// A body ends with its last frame: every declared length is there and nothing is left.
  predicate Complete(body: seq<Byte>)
    decreases |body|
  {
    if |body| < 5 then body == []
    else
      var length := FromBig(body[1..5]);
      5 + length <= |body| && Complete(body[5 + length..])
  }

  lemma WholeHead(body: seq<Byte>) returns (head: Frame, tail: seq<Byte>)
    requires |body| >= 5 && 5 + FromBig(body[1..5]) <= |body|
    ensures body == Wire(head) + tail && tail == body[5 + FromBig(body[1..5])..] && |head.payload| < MAX_PAYLOAD
    ensures FramesOf(body) == [head] + FramesOf(tail)
  {
    hide FromBig, ToBig, Power;
    PowerOfFour();
    FromBigBound(body[1..5]);
    BigIsUnique(body[1..5]);
    var length := FromBig(body[1..5]);
    head, tail := Frame(body[0], body[5..][..length]), body[5 + length..];
    assert body[5..][length..] == tail;
    assert body == [body[0]] + body[1..5] + body[5..][..length] + tail;
  }

  lemma ShortHead(body: seq<Byte>)
    requires |body| >= 5 && 5 + FromBig(body[1..5]) > |body|
    ensures FramesOf(body) == [Frame(body[0], body[5..])]
    ensures |body| - 5 < MAX_PAYLOAD && Wire(Frame(body[0], body[5..])) != body
  {
    hide FromBig, ToBig, Power;
    PowerOfFour();
    FromBigBound(body[1..5]);
    assert Drop(body[5..], FromBig(body[1..5])) == [];
    assert Wire(Frame(body[0], body[5..]))[1..5] == ToBig(|body| - 5, 4);
  }

  /// The complete bodies are exactly the concatenations of frames, and only those are read
  /// without loss.
  lemma {:induction false} CompleteBodiesOnly(body: seq<Byte>)
    ensures Complete(body) <==> Concat(FramesOf(body)) == body
    ensures Sendable(FramesOf(body))
    decreases |body|
  {
    hide FromBig, Wire;
    if |body| < 5 {
    } else if 5 + FromBig(body[1..5]) <= |body| {
      var head, tail := WholeHead(body);
      CompleteBodiesOnly(tail);
      hide FramesOf;
      assert FramesOf(body)[1..] == FramesOf(tail);
      assert Concat(FramesOf(body)) == Wire(head) + Concat(FramesOf(tail));
      assert (Wire(head) + tail)[|Wire(head)|..] == tail;
      assert (Wire(head) + Concat(FramesOf(tail)))[|Wire(head)|..] == Concat(FramesOf(tail));
    } else {
      ShortHead(body);
      hide FramesOf;
      assert FramesOf(body)[1..] == [];
      assert Concat(FramesOf(body)) == Wire(Frame(body[0], body[5..])) + [];
    }
  }

  lemma HeadCut(f: Frame, kept: nat)
    requires |f.payload| < MAX_PAYLOAD && kept <= |f.payload|
    ensures FramesOf(Wire(f)[..5 + kept]) == [Frame(f.flag, f.payload[..kept])]
  {
    hide FromBig, ToBig, Power;
    PowerOfFour();
    var cut := Wire(f)[..5 + kept];
    assert cut[1..5] == ToBig(|f.payload|, 4);
    assert cut[5..] == f.payload[..kept];
    assert Take(cut[5..], |f.payload|) == f.payload[..kept];
    assert Drop(cut[5..], |f.payload|) == [];
  }

  /// A body cut inside its last payload is not noticed: the payload just comes out shorter.
  lemma CutPayloadIsSilent(frames: seq<Frame>, last: Frame, kept: nat)
    requires Sendable(frames + [last]) && kept <= |last.payload|
    ensures var body := Concat(frames) + Wire(last)[..5 + kept];
            FramesOf(body) == frames + [Frame(last.flag, last.payload[..kept])]
  {
    hide FramesOf, Concat;
    assert (frames + [last])[|frames|] == last;
    assert forall n :: 0 <= n < |frames| ==> (frames + [last])[n] == frames[n];
    HeadCut(last, kept);
    FramesRoundTrip(frames, Wire(last)[..5 + kept]);
  }
}
