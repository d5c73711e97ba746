/** The wire format of thread messages, and a byte-at-a-time automaton that reads it.

  A frame is a thread id, an opcode, a two-byte length and the payload (src/main.js:137-156). The automaton is
  the specification `Parser.Read` is proved against; the theorems here say what it computes.
 */
module Frames {
  import opened Bytes

  datatype Frame = Frame(id: byte, op: byte, body: seq<byte>)

  /** The length field has two bytes. */
  predicate Fits(f: Frame) {
    |f.body| < 0x1_0000
  }

  ghost predicate AllFit(fs: seq<Frame>) {
    forall f :: f in fs ==> Fits(f)
  }

  function Header(id: byte, op: byte, size: nat): (r: seq<byte>)
    ensures |r| == 4
  {
    [id, op] + BE16(size)
  }

  /** What the sender puts on the wire. A payload that does not fit is sent whole, but its length wraps around. */
  function Wire(f: Frame): (r: seq<byte>)
    ensures |r| == 4 + |f.body|
  {
    Header(f.id, f.op, |f.body|) + f.body
  }

  function WireAll(fs: seq<Frame>): seq<byte> {
    if fs == [] then [] else WireAll(fs[..|fs| - 1]) + Wire(fs[|fs| - 1])
  }

  // ----- the automaton

  /** Where the reader stands inside a frame, with the part of the frame it has consumed. */
  datatype RawState =
    | AtId
    | AtOp(id: byte)
    | AtHi(id: byte, op: byte)
    | AtLo(id: byte, op: byte, hi: byte)
    | InBody(id: byte, op: byte, size: nat, body: seq<byte>)
  {
    ghost predicate Valid() {
      InBody? ==> size < 0x1_0000 && (body == [] || |body| < size)
    }

    /** The bytes consumed since the last complete frame. */
    function Held(): seq<byte> {
      match this
      case AtId => []
      case AtOp(id) => [id]
      case AtHi(id, op) => [id, op]
      case AtLo(id, op, hi) => [id, op, hi]
      case InBody(id, op, size, body) => Header(id, op, size) + body
    }
  }

  type State = s: RawState | s.Valid() witness AtId

  datatype Out = Out(state: State, frames: seq<Frame>)

  /** One byte. A frame without payload is only noticed, and delivered, when the byte after its header arrives. */
  function Step(s: State, b: byte): Out {
    match s
    case AtId => Out(AtOp(b), [])
    case AtOp(id) => Out(AtHi(id, b), [])
    case AtHi(id, op) => Out(AtLo(id, op, b), [])
    case AtLo(id, op, hi) => Out(InBody(id, op, Join(hi, b), []), [])
    case InBody(id, op, size, body) =>
      if size == 0 then Out(AtOp(b), [Frame(id, op, [])])
      else if |body| + 1 < size then Out(InBody(id, op, size, body + [b]), [])
      else Out(AtId, [Frame(id, op, body + [b])])
  }

  function Feed(s: State, bs: seq<byte>): Out
    decreases |bs|
  {
    if bs == [] then Out(s, []) else
      var first := Step(s, bs[0]);
      var rest := Feed(first.state, bs[1..]);
      Out(rest.state, first.frames + rest.frames)
  }

  /** Reading a stream in pieces of any size. */
  function FeedChunks(s: State, chunks: seq<seq<byte>>): Out
    decreases |chunks|
  {
    if chunks == [] then Out(s, []) else
      var first := Feed(s, chunks[0]);
      var rest := FeedChunks(first.state, chunks[1..]);
      Out(rest.state, first.frames + rest.frames)
  }

  // ----- splitting the stream

  /** Feeding `a + b` is feeding `a` and then `b`. */
  lemma {:induction false} FeedSplit(s: State, a: seq<byte>, b: seq<byte>)
    ensures var x := Feed(s, a);
            var y := Feed(x.state, b);
            Feed(s, a + b) == Out(y.state, x.frames + y.frames)
    decreases |a|
  {
    if a == [] {
      assert a + b == b;
    } else {
      assert (a + b)[1..] == a[1..] + b;
      FeedSplit(Step(s, a[0]).state, a[1..], b);
    }
  }

  /** However a stream is cut into chunks, the reader ends in the same state and delivers the same frames. */
  lemma {:induction false} ChunkingIrrelevant(s: State, chunks: seq<seq<byte>>)
    ensures FeedChunks(s, chunks) == Feed(s, Concat(chunks))
    decreases |chunks|
  {
    if chunks != [] {
      ChunkingIrrelevant(Feed(s, chunks[0]).state, chunks[1..]);
      FeedSplit(s, chunks[0], Concat(chunks[1..]));
    }
  }

  // ----- conservation

  lemma {:induction false} WireAllConcat(fs: seq<Frame>, gs: seq<Frame>)
    ensures WireAll(fs + gs) == WireAll(fs) + WireAll(gs)
    decreases |gs|
  {
    hide Wire;
    if gs == [] {
      assert fs + gs == fs;
    } else {
      var front, last := gs[..|gs| - 1], gs[|gs| - 1];
      WireAllConcat(fs, front);
      assert (fs + gs)[..|fs + gs| - 1] == fs + front;
      assert WireAll(fs + gs) == WireAll(fs) + WireAll(front) + Wire(last);
      Associative(WireAll(fs), WireAll(front), Wire(last));
    }
  }

  lemma WireAllLast(fs: seq<Frame>)
    requires fs != []
    ensures WireAll(fs) == WireAll(fs[..|fs| - 1]) + Wire(fs[|fs| - 1])
  {
  }

  lemma WireAllOne(f: Frame)
    ensures WireAll([f]) == Wire(f)
  {
    assert WireAll([f][..0]) == [];
  }

  lemma StepConserves(s: State, b: byte)
    ensures WireAll(Step(s, b).frames) + Step(s, b).state.Held() == s.Held() + [b]
    ensures AllFit(Step(s, b).frames)
  {
    var r := Step(s, b);
    if s.AtLo? {
      BE16OfBytes(s.hi, b);
    }
    if r.frames == [] {
      assert r.state.Held() == s.Held() + [b];
      assert WireAll(r.frames) == [];
    } else {
      WireAllOne(r.frames[0]);
      assert r.frames == [r.frames[0]];
      assert Wire(r.frames[0]) + r.state.Held() == s.Held() + [b];
    }
  }

  lemma Regroup(a: seq<byte>, b: seq<byte>, c: seq<byte>, d: seq<byte>, e: seq<byte>, bs: seq<byte>)
    requires bs != [] && b + c == d + bs[1..] && a + d == e + [bs[0]]
    ensures a + b + c == e + bs
  {
    assert a + b + c == a + (b + c) == a + (d + bs[1..]) == (a + d) + bs[1..];
    assert e + [bs[0]] + bs[1..] == e + ([bs[0]] + bs[1..]) == e + bs;
  }

  /** No byte is lost, duplicated or reordered: frames delivered and bytes held are exactly the bytes consumed. */
  lemma {:induction false} FeedConserves(s: State, bs: seq<byte>)
    ensures WireAll(Feed(s, bs).frames) + Feed(s, bs).state.Held() == s.Held() + bs
    ensures AllFit(Feed(s, bs).frames)
    decreases |bs|
  {
    if bs != [] {
      var first := Step(s, bs[0]);
      var rest := Feed(first.state, bs[1..]);
      StepConserves(s, bs[0]);
      FeedConserves(first.state, bs[1..]);
      WireAllConcat(first.frames, rest.frames);
      Regroup(WireAll(first.frames), WireAll(rest.frames), rest.state.Held(), first.state.Held(), s.Held(), bs);
    }
  }

  // ----- round trip

  lemma {:induction false} FeedBody(s: State, bs: seq<byte>)
    requires s.InBody? && |s.body| + |bs| <= s.size
    ensures |s.body| + |bs| < s.size ==> Feed(s, bs) == Out(s.(body := s.body + bs), [])
    ensures |s.body| + |bs| == s.size && bs != [] ==> Feed(s, bs) == Out(AtId, [Frame(s.id, s.op, s.body + bs)])
    decreases |bs|
  {
    if bs == [] {
      assert s.body + bs == s.body;
    } else if |bs| == 1 {
      assert bs == [bs[0]] && Feed(Step(s, bs[0]).state, bs[1..]) == Out(Step(s, bs[0]).state, []);
    } else {
      FeedBody(Step(s, bs[0]).state, bs[1..]);
      assert s.body + [bs[0]] + bs[1..] == s.body + bs;
    }
  }

  lemma FeedHeader(id: byte, op: byte, size: nat)
    requires size < 0x1_0000
    ensures Feed(AtId, Header(id, op, size)) == Out(InBody(id, op, size, []), [])
  {
    BE16RoundTrip(size);
    var h := Header(id, op, size);
    assert h[1..][1..] == h[2..] && h[2..][1..] == h[3..] && h[3..][1..] == [];
    assert Feed(AtLo(id, op, h[2]), h[3..]) == Out(InBody(id, op, size, []), []);
    assert Feed(AtHi(id, op), h[2..]) == Out(InBody(id, op, size, []), []);
    assert Feed(AtOp(id), h[1..]) == Out(InBody(id, op, size, []), []);
  }

  /** A state is reached by feeding the bytes it holds to a fresh reader. */
  lemma FeedHeld(s: State)
    ensures Feed(AtId, s.Held()) == Out(s, [])
  {
    match s
    case AtId =>
    case AtOp(id) =>
    case AtHi(id, op) =>
      assert Feed(AtOp(id), [op]) == Out(s, []);
    case AtLo(id, op, hi) =>
      assert Feed(AtHi(id, op), [hi]) == Out(s, []);
      assert Feed(AtOp(id), [op, hi]) == Out(s, []);
    case InBody(id, op, size, body) =>
      FeedHeader(id, op, size);
      FeedSplit(AtId, Header(id, op, size), body);
      FeedBody(InBody(id, op, size, []), body);
      assert [] + body == body;
  }

  /** A fitting frame, and then at least one byte if the frame has no payload. */
  lemma FeedFrame(f: Frame, more: seq<byte>)
    requires Fits(f) && (f.body != [] || more != [])
    ensures Feed(AtId, Wire(f) + more) == Out(Feed(AtId, more).state, [f] + Feed(AtId, more).frames)
  {
    var s := InBody(f.id, f.op, |f.body|, []);
    FeedHeader(f.id, f.op, |f.body|);
    FeedSplit(AtId, Header(f.id, f.op, |f.body|), f.body + more);
    assert Wire(f) + more == Header(f.id, f.op, |f.body|) + (f.body + more);
    if f.body == [] {
      assert f.body + more == more;
    } else {
      FeedSplit(s, f.body, more);
      FeedBody(s, f.body);
      assert [] + f.body == f.body;
    }
  }

  /** The only frames that a whole number of frames leaves undelivered: a last one without payload. */
  predicate EndsEmpty(fs: seq<Frame>) {
    fs != [] && fs[|fs| - 1].body == []
  }

  lemma {:induction false} FeedFrames(fs: seq<Frame>, more: seq<byte>)
    requires AllFit(fs) && (EndsEmpty(fs) ==> more != [])
    ensures Feed(AtId, WireAll(fs) + more) == Out(Feed(AtId, more).state, fs + Feed(AtId, more).frames)
    decreases |fs|
  {
    if fs == [] {
      assert WireAll(fs) + more == more;
    } else {
      var last, front := fs[|fs| - 1], fs[..|fs| - 1];
      assert fs == front + [last];
      FeedFrame(last, more);
      FeedFrames(front, Wire(last) + more);
      assert WireAll(fs) + more == WireAll(front) + (Wire(last) + more);
    }
  }

  lemma WaitsAfterEmpty(front: seq<Frame>, last: Frame)
    requires AllFit(front) && last.body == []
    ensures Feed(AtId, WireAll(front) + Wire(last)) == Out(InBody(last.id, last.op, 0, []), front)
  {
    FeedFrames(front, Wire(last));
    FeedHeld(InBody(last.id, last.op, 0, []));
  }

  lemma NeverSettlesEmpty(bs: seq<byte>)
    ensures Feed(AtId, bs).state == AtId ==> !EndsEmpty(Feed(AtId, bs).frames)
  {
    hide Feed, WireAll, Wire;
    var fs := Feed(AtId, bs).frames;
    FeedConserves(AtId, bs);
    if Feed(AtId, bs).state == AtId && EndsEmpty(fs) {
      var last, front := fs[|fs| - 1], fs[..|fs| - 1];
      assert fs == front + [last];
      WireAllLast(fs);
      assert bs == AtId.Held() + bs == WireAll(fs) + AtId.Held() == WireAll(front) + Wire(last);
      WaitsAfterEmpty(front, last);
    }
  }

  /** Reading on from a state is reading from the start, with the held bytes first. */
  lemma FeedFromHeld(s: State, bs: seq<byte>)
    ensures Feed(AtId, s.Held() + bs) == Feed(s, bs)
  {
    hide Feed;
    FeedHeld(s);
    FeedSplit(AtId, s.Held(), bs);
    assert [] + Feed(s, bs).frames == Feed(s, bs).frames;
  }

  lemma FeedFramesAndHeld(fs: seq<Frame>, t: State)
    requires AllFit(fs) && !(t == AtId && EndsEmpty(fs))
    ensures Feed(AtId, WireAll(fs) + t.Held()) == Out(t, fs)
  {
    FeedFrames(fs, t.Held());
    FeedHeld(t);
    assert fs + [] == fs;
  }

  /** The exact meaning of reading `bs` from state `s`: the frames and the new state are the only way to write the
      bytes held and read as fitting frames followed by held bytes, where a frame without payload does not come
      last with nothing after it. */
  lemma {:induction false} ReadsExactly(s: State, bs: seq<byte>, t: State, fs: seq<Frame>)
    ensures Feed(s, bs) == Out(t, fs) <==>
            WireAll(fs) + t.Held() == s.Held() + bs && AllFit(fs) && !(t == AtId && EndsEmpty(fs))
  {
    if Feed(s, bs) == Out(t, fs) {
      FeedConserves(s, bs);
      FeedFromHeld(s, bs);
      NeverSettlesEmpty(s.Held() + bs);
    }
    if WireAll(fs) + t.Held() == s.Held() + bs && AllFit(fs) && !(t == AtId && EndsEmpty(fs)) {
      FeedFromHeld(s, bs);
      FeedFramesAndHeld(fs, t);
    }
  }

  /** Delivery is prompt with one exception. Every frame whose bytes have all arrived has been delivered, unless
      it has no payload and the final byte of its header is the last byte that arrived; then the reader waits at
      the end of that header, and delivers the frame on the next byte, which it takes as the next thread id. */
  lemma {:induction false} Prompt(bs: seq<byte>, fs: seq<Frame>, next: byte)
    requires AllFit(fs) && WireAll(fs) <= bs
    ensures !(EndsEmpty(fs) && bs == WireAll(fs)) ==> fs <= Feed(AtId, bs).frames
    ensures EndsEmpty(fs) && bs == WireAll(fs) ==>
              var last := fs[|fs| - 1];
              && Feed(AtId, bs) == Out(InBody(last.id, last.op, 0, []), fs[..|fs| - 1])
              && Step(Feed(AtId, bs).state, next) == Out(AtOp(next), [last])
  {
    hide Feed, WireAll;
    if EndsEmpty(fs) && bs == WireAll(fs) {
      var last, front := fs[|fs| - 1], fs[..|fs| - 1];
      WireAllLast(fs);
      WaitsAfterEmpty(front, last);
    } else {
      var more := bs[|WireAll(fs)|..];
      assert bs == WireAll(fs) + more;
      FeedFrames(fs, more);
    }
  }

  // ----- payloads that do not fit

  /** The frame the reader makes of a sent frame: its length is taken modulo 65536. */
  function Truncated(f: Frame): (r: Frame)
    ensures Fits(r) && |r.body| == |f.body| % 0x1_0000
  {
    f.(body := f.body[..|f.body| % 0x1_0000])
  }

  /** A frame that does not fit is delivered cut short, and the bytes cut off are read as frames, with whatever was
      sent afterwards. */
  lemma {:induction false} OversizeTruncated(fs: seq<Frame>, f: Frame, more: seq<byte>)
    requires AllFit(fs) && !Fits(f)
    ensures var spill := f.body[|f.body| % 0x1_0000..] + more;
            Feed(AtId, WireAll(fs) + Wire(f) + more)
              == Out(Feed(AtId, spill).state, fs + [Truncated(f)] + Feed(AtId, spill).frames)
  {
    hide Feed, BE16;
    var t := Truncated(f);
    var spill := f.body[|t.body|..] + more;
    assert BE16(|f.body|) == BE16(|t.body|) by { SameLengthField(|f.body|); }
    assert f.body == t.body + f.body[|t.body|..];
    assert WireAll(fs) + Wire(f) + more == WireAll(fs) + (Wire(t) + spill);
    assert (fs + [t])[..|fs|] == fs;
    assert WireAll(fs + [t]) + spill == WireAll(fs) + (Wire(t) + spill);
    FeedFrames(fs + [t], spill);
  }

  lemma SameLengthField(n: nat)
    ensures BE16(n) == BE16(n % 0x1_0000)
  {
    assert n == n / 0x1_0000 * 0x1_0000 + n % 0x1_0000;
    assert n / 0x100 == n / 0x1_0000 * 0x100 + n % 0x1_0000 / 0x100;
  }

  lemma FirstOversize(fs: seq<Frame>) returns (k: nat)
    requires !AllFit(fs)
    ensures k < |fs| && !Fits(fs[k]) && AllFit(fs[..k])
  {
    k := 0;
    while Fits(fs[k])
      invariant k < |fs| && AllFit(fs[..k])
      invariant !AllFit(fs[k..])
      decreases |fs| - k
    {
      assert fs[k..] == [fs[k]] + fs[k + 1..];
      assert fs[..k + 1] == fs[..k] + [fs[k]];
      k := k + 1;
      assert fs[k..] != [];
    }
  }

  /** Reading everything that was sent delivers nothing but the sent frames, in order, exactly when every payload
      fits its length field. */
  lemma {:induction false} FaithfulExactlyWhenFits(fs: seq<Frame>)
    ensures Feed(AtId, WireAll(fs)).frames <= fs <==> AllFit(fs)
  {
    if AllFit(fs) {
      Prompt(WireAll(fs), fs, 0);
      assert WireAll(fs) + [] == WireAll(fs);
      if !EndsEmpty(fs) {
        FeedFrames(fs, []);
      }
    } else {
      var k := FirstOversize(fs);
      var before, f, after := fs[..k], fs[k], fs[k + 1..];
      assert fs == before + ([f] + after);
      WireAllConcat(before, [f] + after);
      WireAllConcat([f], after);
      WireAllOne(f);
      assert WireAll(fs) == WireAll(before) + Wire(f) + WireAll(after);
      OversizeTruncated(before, f, WireAll(after));
      assert (before + [Truncated(f)])[k] == Truncated(f) != f;
    }
  }

  /** A single frame comes back exactly as sent when, and only when, it fits and is not empty. */
  lemma {:induction false} OneFrameRoundTrip(f: Frame)
    ensures Feed(AtId, Wire(f)).frames == [f] <==> 0 < |f.body| < 0x1_0000
  {
    WireAllOne(f);
    FaithfulExactlyWhenFits([f]);
    if Fits(f) {
      assert WireAll([f]) <= Wire(f);
      Prompt(Wire(f), [f], 0);
    }
  }
}
