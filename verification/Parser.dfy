/** The message parser of a thread connection (src/main.js:73-160): `Read` consumes whatever chunk the socket put
  in the receive buffer, `Write` lays a frame out in the send buffer.

  The object `message` that the source keeps changing is a value here, as every delivery copies it.
 */
module MessageParser {
  import opened Bytes
  import opened Frames

  const JSON := 1
  const STRING := 2
  const BUFFER := 3

  datatype Payload = Null | Str(text: seq<byte>)

  /** `length` and `offset` do not exist until first assigned; `length` always is by the time it is read. */
  datatype Message = Message(opCode: byte, threadId: byte, length: nat, payload: Payload, offset: Option<nat>)

  /** The id a process stamps on its frames: `process.TID || process.PID` in one byte. */
  function SenderId(tid: nat, pid: nat): byte {
    U8(if tid != 0 then tid else pid)
  }

  // ----- how the parser's fields represent a state of the automaton

  /** What holds of the fields whenever `read` is not running. `body` is the part of the current payload already
      received, for opcode 3 too, where the parser does not keep it. */
  ghost predicate Resting(position: nat, m: Message, body: seq<byte>) {
    && (position == 3 ==> m.length < 0x1_0000 && m.length % 0x100 == 0)
    && (4 <= position ==>
          && m.length < 0x1_0000
          && (position == 4 || position < 4 + m.length)
          && |body| == position - 4
          && m.payload == Str(if m.opCode == 3 then [] else body))
  }

  ghost function StateOf(position: nat, m: Message, body: seq<byte>): State
    requires Resting(position, m, body)
  {
    if position == 0 then AtId
    else if position == 1 then AtOp(m.threadId)
    else if position == 2 then AtHi(m.threadId, m.opCode)
    else if position == 3 then AtLo(m.threadId, m.opCode, m.length / 0x100)
    else InBody(m.threadId, m.opCode, m.length, body)
  }

  /** The state determines the position and whatever part of a header or payload has been received. */
  lemma StateShowsFields(p: nat, m: Message, body: seq<byte>, p': nat, m': Message, body': seq<byte>)
    requires Resting(p, m, body) && Resting(p', m', body')
    requires StateOf(p, m, body) == StateOf(p', m', body')
    ensures p == p'
    ensures 1 <= p ==> m.threadId == m'.threadId
    ensures 2 <= p ==> m.opCode == m'.opCode
    ensures 3 <= p ==> m.length == m'.length
    ensures 4 <= p ==> m.payload == m'.payload
  {
    assert 4 <= p ==> p == 4 + |StateOf(p, m, body).body| && StateOf(p', m', body').InBody?;
  }

  // ----- how the delivered messages represent frames

  ghost predicate Carries(m: Message, f: Frame) {
    && m.threadId == f.id && m.opCode == f.op && m.length == |f.body|
    && m.payload == if f.op == 3 then Null else Str(f.body)
  }

  /** `offset` is where the receive buffer holds the payload, from its byte number `skip` on. */
  ghost predicate InPlace(m: Message, f: Frame, skip: nat, buf: seq<byte>) {
    && m.offset.Some? && skip <= |f.body|
    && var end := m.offset.value + |f.body| - skip;
       end <= |buf| && buf[m.offset.value..end] == f.body[skip..]
  }

  /** The payload bytes of an unfinished frame that came with earlier chunks. */
  ghost function Carried(s: State): nat {
    if s.InBody? then |s.body| else 0
  }

  /** The messages are the frames, in order. A buffer message (opcode 3) shows where its payload lies in the chunk:
      all of it, or, for a first frame begun in earlier chunks, all that has not been overwritten since. */
  ghost predicate Reports(ms: seq<Message>, fs: seq<Frame>, carried: nat, buf: seq<byte>) {
    && |ms| == |fs|
    && forall k :: 0 <= k < |fs| ==>
         && Carries(ms[k], fs[k])
         && (fs[k].op == 3 ==> InPlace(ms[k], fs[k], if k == 0 then carried else 0, buf))
  }

  lemma ReportsOneMore(ms: seq<Message>, fs: seq<Frame>, carried: nat, buf: seq<byte>, m: Message, f: Frame)
    requires Reports(ms, fs, carried, buf) && Carries(m, f)
    requires f.op == BUFFER ==> InPlace(m, f, if fs == [] then carried else 0, buf)
    ensures Reports(ms + [m], fs + [f], carried, buf)
  {
  }

  // ----- how far a read has come

  ghost function From(buf: seq<byte>, off: nat): seq<byte> {
    if off <= |buf| then buf[off..] else []
  }

  /** Feeding `all` to `s0` comes down to delivering `frames` and feeding `rest` to `s`. */
  ghost predicate Reached(s0: State, all: seq<byte>, frames: seq<Frame>, s: State, rest: seq<byte>) {
    && Feed(s0, all).state == Feed(s, rest).state
    && Feed(s0, all).frames == frames + Feed(s, rest).frames
  }

  lemma {:induction false} ReachedMore(s0: State, all: seq<byte>, frames: seq<Frame>, s: State,
                                       bs: seq<byte>, rest: seq<byte>, x: Out)
    requires Reached(s0, all, frames, s, bs + rest)
    requires Feed(s, bs) == x
    ensures Reached(s0, all, frames + x.frames, x.state, rest)
  {
    hide Feed;
    FeedSplit(s, bs, rest);
    Associative(frames, x.frames, Feed(x.state, rest).frames);
  }

  lemma ReachedStep(s0: State, buf: seq<byte>, start: nat, frames: seq<Frame>, s: State, off: nat)
    requires Reached(s0, From(buf, start), frames, s, From(buf, off))
    requires off < |buf| && !s.InBody?
    ensures Reached(s0, From(buf, start), frames, Step(s, buf[off]).state, From(buf, off + 1))
  {
    assert From(buf, off) == [buf[off]] + From(buf, off + 1);
    assert Feed(s, [buf[off]]) == Step(s, buf[off]);
    ReachedMore(s0, From(buf, start), frames, s, [buf[off]], From(buf, off + 1), Step(s, buf[off]));
    assert frames + [] == frames;
  }

  /** A payload of which the next `n` bytes, but not the last, are in the chunk. */
  lemma ReachedPart(s0: State, buf: seq<byte>, start: nat, frames: seq<Frame>, s: State, off: nat, n: nat)
    requires Reached(s0, From(buf, start), frames, s, From(buf, off))
    requires off + n <= |buf| && s.InBody? && |s.body| + n < s.size
    ensures Reached(s0, From(buf, start), frames, s.(body := s.body + buf[off..off + n]), From(buf, off + n))
  {
    hide Feed;
    var bs, rest := buf[off..off + n], From(buf, off + n);
    assert From(buf, off) == bs + rest;
    FeedBody(s, bs);
    ReachedMore(s0, From(buf, start), frames, s, bs, rest, Out(s.(body := s.body + bs), []));
    assert frames + [] == frames;
  }

  /** A payload whose last `n` bytes are in the chunk. A payload without bytes is delivered as well, although that
      consumes nothing. */
  lemma ReachedEnd(s0: State, buf: seq<byte>, start: nat, frames: seq<Frame>, s: State, off: nat, n: nat)
    requires Reached(s0, From(buf, start), frames, s, From(buf, off))
    requires off < |buf| && off + n <= |buf| && s.InBody? && |s.body| + n == s.size
    ensures Reached(s0, From(buf, start), frames + [Frame(s.id, s.op, s.body + buf[off..off + n])], AtId,
                    From(buf, off + n))
  {
    hide Feed;
    var bs, rest := buf[off..off + n], From(buf, off + n);
    if n == 0 {
      ReachedEmpty(s0, From(buf, start), frames, s, rest);
      assert s.body + bs == [];
    } else {
      assert From(buf, off) == bs + rest;
      FeedBody(s, bs);
      ReachedMore(s0, From(buf, start), frames, s, bs, rest, Out(AtId, [Frame(s.id, s.op, s.body + bs)]));
    }
  }

  lemma ReachedEmpty(s0: State, all: seq<byte>, frames: seq<Frame>, s: State, rest: seq<byte>)
    requires Reached(s0, all, frames, s, rest) && rest != [] && s.InBody? && s.size == 0
    ensures Reached(s0, all, frames + [Frame(s.id, s.op, [])], AtId, rest)
  {
    hide Feed;
    EmptyNoticed(s, rest);
    Associative(frames, [Frame(s.id, s.op, [])], Feed(AtId, rest).frames);
  }

  lemma EmptyNoticed(s: State, rest: seq<byte>)
    requires rest != [] && s.InBody? && s.size == 0
    ensures Feed(s, rest) == Out(Feed(AtId, rest).state, [Frame(s.id, s.op, [])] + Feed(AtId, rest).frames)
  {
  }

  /** Where a read of `buf` from `start`, begun in state `s0`, stands when it is at `off`. */
  ghost predicate Progress(s0: State, buf: seq<byte>, start: nat, position: nat, m: Message, body: seq<byte>,
                           ms: seq<Message>, frames: seq<Frame>, off: nat)
  {
    && Resting(position, m, body)
    && var s := StateOf(position, m, body);
       && (off < |buf| ==> Carried(s) == if frames == [] then Carried(s0) else 0)
       && Reports(ms, frames, Carried(s0), buf)
       && Reached(s0, From(buf, start), frames, s, From(buf, off))
  }

  lemma ProgressStart(buf: seq<byte>, start: nat, position: nat, m: Message, body: seq<byte>)
    requires Resting(position, m, body)
    ensures Progress(StateOf(position, m, body), buf, start, position, m, body, [], [], start)
  {
  }

  lemma ProgressDone(s0: State, buf: seq<byte>, start: nat, position: nat, m: Message, body: seq<byte>,
                     ms: seq<Message>, frames: seq<Frame>, off: nat)
    requires Progress(s0, buf, start, position, m, body, ms, frames, off) && |buf| <= off
    ensures var r := Feed(s0, From(buf, start));
            r.state == StateOf(position, m, body) && Reports(ms, r.frames, Carried(s0), buf)
  {
  }

  function WithHeaderByte(position: nat, m: Message, b: byte): Message {
    if position == 0 then m.(threadId := b)
    else if position == 1 then m.(opCode := b)
    else if position == 2 then m.(length := b as nat * 0x100)
    else m.(length := m.length + b, payload := Str([]))
  }

  lemma {:induction false} ProgressHeader(s0: State, buf: seq<byte>, start: nat, position: nat, m: Message,
                                          body: seq<byte>, ms: seq<Message>, frames: seq<Frame>, off: nat)
    requires Progress(s0, buf, start, position, m, body, ms, frames, off) && position < 4 && off < |buf|
    ensures Progress(s0, buf, start, position + 1, WithHeaderByte(position, m, buf[off]),
                     if position == 3 then [] else body, ms, frames, off + 1)
  {
    hide Feed, From;
    ReachedStep(s0, buf, start, frames, StateOf(position, m, body), off);
  }

  lemma ProgressPart(s0: State, buf: seq<byte>, start: nat, position: nat, m: Message, body: seq<byte>,
                     ms: seq<Message>, frames: seq<Frame>, off: nat, m': Message)
    requires Progress(s0, buf, start, position, m, body, ms, frames, off)
    requires 4 <= position && off < |buf| && |buf| - off < m.length - (position - 4)
    requires m' == if m.opCode == BUFFER then m else m.(payload := Str(m.payload.text + buf[off..]))
    ensures Progress(s0, buf, start, position + |buf| - off, m', body + buf[off..], ms, frames, |buf|)
  {
    hide Feed;
    var s := StateOf(position, m, body);
    ReachedPart(s0, buf, start, frames, s, off, |buf| - off);
    assert buf[off..off + (|buf| - off)] == buf[off..];
    assert StateOf(position + |buf| - off, m', body + buf[off..]) == s.(body := body + buf[off..]);
  }

  lemma ProgressEnd(s0: State, buf: seq<byte>, start: nat, position: nat, m: Message, body: seq<byte>,
                    ms: seq<Message>, frames: seq<Frame>, off: nat, n: nat, m': Message)
    requires Progress(s0, buf, start, position, m, body, ms, frames, off)
    requires 4 <= position && off < |buf| && off + n <= |buf| && n == m.length - (position - 4)
    requires m' == if m.opCode == BUFFER then m.(payload := Null, offset := Some(off))
                   else m.(payload := Str(m.payload.text + buf[off..off + n]))
    ensures Progress(s0, buf, start, 0, m', body, ms + [m'],
                     frames + [Frame(m.threadId, m.opCode, body + buf[off..off + n])], off + n)
  {
    hide Feed;
    var f := Frame(m.threadId, m.opCode, body + buf[off..off + n]);
    ReachedEnd(s0, buf, start, frames, StateOf(position, m, body), off, n);
    assert f.body[|body|..] == buf[off..off + n];
    ReportsOneMore(ms, frames, Carried(s0), buf, m', f);
  }

  class Parser {
    const rb: array<byte>
    const wb: array<byte>
    /** `process.TID` and `process.PID` of the process that owns the parser. */
    const tid: nat
    const pid: nat
    var position: nat
    var message: Message
    /** The messages handed to `onMessage` so far. */
    var delivered: seq<Message>
    ghost var body: seq<byte>

    ghost predicate Valid()
      reads this
    {
      Resting(position, message, body)
    }

    ghost function Abs(): State
      requires Valid()
      reads this
    {
      StateOf(position, message, body)
    }

    constructor (rb: array<byte>, wb: array<byte>, tid: nat, pid: nat)
      ensures Valid() && Abs() == AtId && position == 0 && delivered == []
      ensures this.rb == rb && this.wb == wb && this.tid == tid && this.pid == pid
    {
      this.rb, this.wb, this.tid, this.pid := rb, wb, tid, pid;
      position, delivered, body := 0, [], [];
      message := Message(0, 0, 0, Str([]), None);
    }

    /** Reads the chunk `rb[start..len]`. The parser moves as the automaton does on these bytes, and hands on the
        frames the automaton delivers. `len` is the count the socket read into `rb`. */
    method Read(len: nat, start: nat := 0)
      requires Valid() && len <= rb.Length
      modifies this
      ensures Valid()
      ensures var r := Feed(old(Abs()), From(rb[..len], start));
              && Abs() == r.state
              && old(delivered) <= delivered
              && Reports(delivered[|old(delivered)|..], r.frames, Carried(old(Abs())), rb[..len])
    {
      var off: nat, position: nat := start, this.position;
      hide Progress, Feed, Reports, StateOf, From;
      ghost var s0, buf, ms, frames := Abs(), rb[..len], [], [];
      ProgressStart(buf, start, position, message, body);
      while off < len
        invariant off <= len || off == start
        invariant delivered == old(delivered) + ms
        invariant Resting(position, message, body)
        invariant Progress(s0, buf, start, position, message, body, ms, frames, off)
        decreases len - off, if 4 <= position then 1 else 0
      {
        ghost var was := message;
        if position == 0 {
          message := message.(threadId := rb[off]);
          ProgressHeader(s0, buf, start, position, was, body, ms, frames, off);
          off, position := off + 1, position + 1;
        } else if position == 1 {
          message := message.(opCode := rb[off]);
          ProgressHeader(s0, buf, start, position, was, body, ms, frames, off);
          off, position := off + 1, position + 1;
        } else if position == 2 {
          message := message.(length := rb[off] as nat * 0x100);
          ProgressHeader(s0, buf, start, position, was, body, ms, frames, off);
          off, position := off + 1, position + 1;
        } else if position == 3 {
          message := message.(length := message.length + rb[off], payload := Str([]));
          ProgressHeader(s0, buf, start, position, was, body, ms, frames, off);
          off, position, body := off + 1, position + 1, [];
        } else {
          var toread: nat := message.length - (position - 4);
          if len < toread + off {
            toread := len - off;
            SubSlice(rb, 0, len, off, off + toread);
            if message.opCode != BUFFER {
              message := message.(payload := Str(message.payload.text + rb[off..off + toread]));
            }
            ProgressPart(s0, buf, start, position, was, body, ms, frames, off, message);
            body := body + buf[off..];
            position := position + toread;
            off := len;
          } else {
            SubSlice(rb, 0, len, off, off + toread);
            if message.opCode != BUFFER {
              message := message.(payload := Str(message.payload.text + rb[off..off + toread]));
            } else {
              message := message.(payload := Null, offset := Some(off));
            }
            ProgressEnd(s0, buf, start, position, was, body, ms, frames, off, toread, message);
            Associative(old(delivered), ms, [message]);
            delivered := delivered + [message];
            frames := frames + [Frame(was.threadId, was.opCode, body + buf[off..off + toread])];
            ms := ms + [message];
            off := off + toread;
            position := 0;
          }
        }
      }
      this.position := position;
      assert delivered[|old(delivered)|..] == ms;
      ProgressDone(s0, buf, start, position, message, body, ms, frames, off);
    }

    /** Stores a frame of `wb` at `off`: all of it for text, only its header for opcode 3, whose payload is already
        in place. Returns the distance to the next frame; `None` is the `RangeError` of a header that does not fit,
        which leaves behind the single bytes stored before. `text` is the string, or the JSON text of the object.
        `Buffer.write` does not check bounds, so there must be room for the text. */
    method Write(text: seq<byte>, opCode: nat := JSON, off: nat := 0, size: nat := 0) returns (r: Option<nat>)
      requires opCode in {1, 2} && off + 4 <= wb.Length ==> off + 4 + |text| <= wb.Length
      modifies wb
      ensures opCode !in {1, 2, 3} ==> r == Some(0) && wb[..] == old(wb[..])
      ensures opCode in {1, 2, 3} && wb.Length < off + 4 ==>
                && r == None
                && (off < wb.Length ==> wb[off] == (if tid != 0 then tid else pid) % 0x100)
                && (off + 1 < wb.Length ==> wb[off + 1] == opCode)
                && forall i :: 0 <= i < wb.Length && i != off && i != off + 1 ==> wb[i] == old(wb[i])
      ensures opCode in {1, 2, 3} && off + 4 <= wb.Length ==>
                var len := if opCode == 3 then size else |text|;
                && r == Some(len + 4)
                && wb[off] == (if tid != 0 then tid else pid) % 0x100
                && wb[off + 1] == opCode
                && wb[off + 2] == len / 0x100 % 0x100 && wb[off + 3] == len % 0x100
      ensures opCode in {1, 2} && off + 4 <= wb.Length ==>
                && wb[off + 4..off + 4 + |text|] == text
                && wb[..] == Splice(old(wb[..]), off, Wire(Frame(SenderId(tid, pid), opCode, text)))
      ensures opCode == 3 && off + 4 <= wb.Length ==>
                wb[..] == Splice(old(wb[..]), off, Header(SenderId(tid, pid), 3, size))
    {
      hide Splice, Header, Wire, SenderId;
      if opCode == JSON {
        var ok := SetHeader(off, JSON, |text|);
        if !ok { return None; }
        Store(wb, off + 4, text);
        FrameStored(old(wb[..]), off, SenderId(tid, pid), JSON, text);
        return Some(|text| + 4);
      } else if opCode == STRING {
        var ok := SetHeader(off, STRING, |text|);
        if !ok { return None; }
        Store(wb, off + 4, text);
        FrameStored(old(wb[..]), off, SenderId(tid, pid), STRING, text);
        return Some(|text| + 4);
      } else if opCode == BUFFER {
        var ok := SetHeader(off, BUFFER, size);
        if !ok { return None; }
        HeaderStored(old(wb[..]), off, SenderId(tid, pid), BUFFER, size);
        return Some(size + 4);
      }
      return Some(0);
    }

    /** The three `DataView` calls every branch of `write` starts with. */
    method SetHeader(off: nat, opCode: byte, size: nat) returns (ok: bool)
      modifies wb
      ensures ok <==> off + 4 <= wb.Length
      ensures ok ==> wb[..] == Splice(old(wb[..]), off, Header(SenderId(tid, pid), opCode, size))
      ensures off < wb.Length ==> wb[off] == (if tid != 0 then tid else pid) % 0x100
      ensures off + 1 < wb.Length ==> wb[off + 1] == opCode
      ensures !ok ==> forall i :: 0 <= i < wb.Length && i != off && i != off + 1 ==> wb[i] == old(wb[i])
    {
      hide Header, BE16;
      var id := SenderId(tid, pid);
      ok := SetBytes(wb, off, [id]);
      if !ok { return; }
      ok := SetBytes(wb, off + 1, [opCode]);
      if !ok { return; }
      ok := SetBytes(wb, off + 2, BE16(size));
      if !ok { return; }
      HeaderBytes(id, opCode, size);
      ghost var was, h := old(wb[..]), Header(id, opCode, size);
      assert forall i :: 0 <= i < wb.Length ==> wb[i] == if off <= i < off + 4 then h[i - off] else was[i];
    }
  }

  lemma HeaderBytes(id: byte, op: byte, size: nat)
    ensures var h := Header(id, op, size);
            h[0] == id && h[1] == op && h[2] == BE16(size)[0] && h[3] == BE16(size)[1]
  {
  }

  lemma HeaderStored(buf: seq<byte>, off: nat, id: byte, op: byte, size: nat)
    requires off + 4 <= |buf|
    ensures var r := Splice(buf, off, Header(id, op, size));
            && r[off] == id && r[off + 1] == op
            && r[off + 2] == size / 0x100 % 0x100 && r[off + 3] == size % 0x100
  {
  }

  /** A header and then a text behind it. */
  lemma FrameStored(buf: seq<byte>, off: nat, id: byte, op: byte, text: seq<byte>)
    requires off + 4 + |text| <= |buf|
    ensures var r := Splice(Splice(buf, off, Header(id, op, |text|)), off + 4, text);
            && r == Splice(buf, off, Wire(Frame(id, op, text)))
            && r[off] == id && r[off + 1] == op
            && r[off + 2] == |text| / 0x100 % 0x100 && r[off + 3] == |text| % 0x100
            && r[off + 4..off + 4 + |text|] == text
  {
    HeaderStored(buf, off, id, op, |text|);
    hide Header;
    SpliceAdjacent(buf, off, Header(id, op, |text|), text);
  }

  /** What a `DataView` setter does: a field that reaches beyond the buffer is a `RangeError` and stores nothing. */
  method SetBytes(a: array<byte>, off: nat, bs: seq<byte>) returns (ok: bool)
    modifies a
    ensures ok <==> off + |bs| <= a.Length
    ensures forall i :: 0 <= i < a.Length ==> a[i] == if ok && off <= i < off + |bs| then bs[i - off] else old(a[i])
  {
    ok := off + |bs| <= a.Length;
    if ok {
      ghost var was := a[..];
      Store(a, off, bs);
      assert forall i :: 0 <= i < a.Length ==> a[i] == a[..][i] && was[i] == old(a[i]);
    }
  }

  /** A buffer frame needs only its header stored: what lies behind it becomes the payload. */
  lemma BufferFrameInPlace(buf: seq<byte>, off: nat, id: byte, size: nat)
    requires off + 4 + size <= |buf|
    ensures Splice(buf, off, Header(id, BUFFER, size))[off..off + 4 + size] ==
            Wire(Frame(id, BUFFER, buf[off + 4..off + 4 + size]))
  {
  }

  // ----- several frames in one buffer

  /** The buffer after each frame has been stored where the one before it ends. */
  ghost function LayAll(buf: seq<byte>, off: nat, fs: seq<Frame>): (r: seq<byte>)
    requires off + |WireAll(fs)| <= |buf|
    ensures |r| == |buf|
    decreases |fs|
  {
    if fs == [] then buf else
      var front := fs[..|fs| - 1];
      Splice(LayAll(buf, off, front), off + |WireAll(front)|, Wire(fs[|fs| - 1]))
  }

  lemma {:induction false} LayAllIsSplice(buf: seq<byte>, off: nat, fs: seq<Frame>)
    requires off + |WireAll(fs)| <= |buf|
    ensures LayAll(buf, off, fs) == Splice(buf, off, WireAll(fs))
    decreases |fs|
  {
    if fs != [] {
      var front := fs[..|fs| - 1];
      LayAllIsSplice(buf, off, front);
      SpliceAdjacent(buf, off, WireAll(front), Wire(fs[|fs| - 1]));
    }
  }

  /** Frames stored one behind the other, each at the distance the previous `Write` returned, come back from one
      `Read` of that stretch, all of them and nothing else, exactly when all fit and the last has a payload. */
  lemma {:induction false} BatchRoundTrip(buf: seq<byte>, off: nat, fs: seq<Frame>)
    requires off + |WireAll(fs)| <= |buf|
    ensures Feed(AtId, From(LayAll(buf, off, fs)[..off + |WireAll(fs)|], off)).frames == fs <==>
            AllFit(fs) && !EndsEmpty(fs)
  {
    LayAllIsSplice(buf, off, fs);
    assert From(LayAll(buf, off, fs)[..off + |WireAll(fs)|], off) == WireAll(fs);
    FaithfulExactlyWhenFits(fs);
    if AllFit(fs) {
      Prompt(WireAll(fs), fs, 0);
      FeedFrames(fs, if EndsEmpty(fs) then [0] else []);
      assert WireAll(fs) + [] == WireAll(fs);
    }
  }

  // ----- reads and writes together

  ghost predicate SameButOffset(ms: seq<Message>, ms': seq<Message>) {
    |ms| == |ms'| && forall k :: 0 <= k < |ms| ==> ms[k].(offset := None) == ms'[k].(offset := None)
  }

  ghost predicate CarryAll(ms: seq<Message>, fs: seq<Frame>) {
    |ms| == |fs| && forall k :: 0 <= k < |fs| ==> Carries(ms[k], fs[k])
  }

  lemma CarryAllConcat(ms: seq<Message>, fs: seq<Frame>, ms': seq<Message>, fs': seq<Frame>)
    requires CarryAll(ms, fs) && CarryAll(ms', fs')
    ensures CarryAll(ms + ms', fs + fs')
  {
  }

  lemma CarryAllSame(ms: seq<Message>, ms': seq<Message>, fs: seq<Frame>)
    requires CarryAll(ms, fs) && CarryAll(ms', fs)
    ensures SameButOffset(ms, ms')
  {
    forall k | 0 <= k < |ms| ensures ms[k].(offset := None) == ms'[k].(offset := None) {
      assert Carries(ms[k], fs[k]) && Carries(ms'[k], fs[k]);
    }
  }

  /** Two parsers in the same state, one given `a + b` in one chunk and the other `a` and then `b`, end in the same
      state and have handed on the same messages, except that `offset` counts from the start of each one's chunk. */
  method ReadBothWays(p: Parser, q: Parser, a: seq<byte>, b: seq<byte>)
    requires p != q && p.Valid() && q.Valid() && p.Abs() == q.Abs() && p.rb != q.rb
    requires |a| + |b| <= p.rb.Length && |a| <= q.rb.Length && |b| <= q.rb.Length
    modifies p, p.rb, q, q.rb
    ensures p.Valid() && q.Valid() && p.Abs() == q.Abs()
    ensures old(p.delivered) <= p.delivered && old(q.delivered) <= q.delivered
    ensures SameButOffset(p.delivered[|old(p.delivered)|..], q.delivered[|old(q.delivered)|..])
  {
    hide Feed, Resting, StateOf, SameButOffset, CarryAll;
    ghost var s, j := p.Abs(), |q.delivered|;
    FeedSplit(s, a, b);
    ReadChunk(p, a + b);
    ReadChunk(q, a);
    ghost var x, mid := Feed(s, a), q.delivered;
    ReadChunk(q, b);
    ghost var y := Feed(x.state, b);
    CarryAllConcat(mid[j..], x.frames, q.delivered[|mid|..], y.frames);
    assert q.delivered[j..] == mid[j..] + q.delivered[|mid|..];
    CarryAllSame(p.delivered[|old(p.delivered)|..], q.delivered[j..], x.frames + y.frames);
  }

  /** The socket puts a chunk into the receive buffer and has it read. */
  method ReadChunk(p: Parser, chunk: seq<byte>)
    requires p.Valid() && |chunk| <= p.rb.Length
    modifies p, p.rb
    ensures p.Valid() && old(p.delivered) <= p.delivered
    ensures var r := Feed(old(p.Abs()), chunk);
            p.Abs() == r.state && CarryAll(p.delivered[|old(p.delivered)|..], r.frames)
  {
    hide Feed, Resting, StateOf, InPlace, Carries;
    Store(p.rb, 0, chunk);
    assert From(p.rb[..|chunk|], 0) == chunk;
    p.Read(|chunk|);
  }

  lemma PayloadThenHeader(buf: seq<byte>, off: nat, head: seq<byte>, body: seq<byte>)
    requires off + |head| + |body| <= |buf|
    ensures Splice(Splice(buf, off + |head|, body), off, head) == Splice(buf, off, head + body)
  {
  }

  /** One call of `Write`, for opcode 3 after its payload has been put in place. */
  method WriteFrame(w: Parser, f: Frame, off: nat) returns (n: nat)
    requires f.id == SenderId(w.tid, w.pid) && f.op in {1, 2, 3}
    requires off + |Wire(f)| <= w.wb.Length
    modifies w.wb
    ensures n == |Wire(f)| && w.wb[..] == Splice(old(w.wb[..]), off, Wire(f))
  {
    var r: Option<nat>;
    if f.op == BUFFER {
      Store(w.wb, off + 4, f.body);
      r := w.Write([], BUFFER, off, |f.body|);
      PayloadThenHeader(old(w.wb[..]), off, Header(f.id, BUFFER, |f.body|), f.body);
    } else {
      r := w.Write(f.body, f.op, off);
    }
    n := r.value;
  }

  /** Calls of `Write`, each at the distance from the one before that this returned. */
  method WriteBatch(w: Parser, fs: seq<Frame>, off: nat) returns (end: nat)
    requires forall f :: f in fs ==> f.id == SenderId(w.tid, w.pid) && f.op in {1, 2, 3}
    requires off + |WireAll(fs)| <= w.wb.Length
    modifies w.wb
    ensures end == off + |WireAll(fs)| && w.wb[..] == LayAll(old(w.wb[..]), off, fs)
  {
    hide WireAll, Wire, LayAll, Splice;
    end := off;
    LayNothing(w.wb[..], off);
    for i := 0 to |fs|
      invariant end == off + |WireAll(fs[..i])| <= w.wb.Length
      invariant w.wb[..] == LayAll(old(w.wb[..]), off, fs[..i])
    {
      WireAllUpTo(fs, i + 1);
      LayOneMore(old(w.wb[..]), off, fs, i);
      var n := WriteFrame(w, fs[i], end);
      end := end + n;
    }
    assert fs[..|fs|] == fs;
  }

  lemma LayNothing(buf: seq<byte>, off: nat)
    requires off <= |buf|
    ensures WireAll([]) == [] && LayAll(buf, off, []) == buf
  {
  }

  lemma WireAllUpTo(fs: seq<Frame>, i: nat)
    requires i <= |fs|
    ensures |WireAll(fs[..i])| <= |WireAll(fs)|
  {
    WireAllConcat(fs[..i], fs[i..]);
    assert fs == fs[..i] + fs[i..];
  }

  lemma LayOneMore(buf: seq<byte>, off: nat, fs: seq<Frame>, i: nat)
    requires i < |fs| && off + |WireAll(fs[..i + 1])| <= |buf|
    ensures var at := off + |WireAll(fs[..i])|;
            && at + |Wire(fs[i])| == off + |WireAll(fs[..i + 1])|
            && LayAll(buf, off, fs[..i + 1]) == Splice(LayAll(buf, off, fs[..i]), at, Wire(fs[i]))
  {
    hide Splice, Wire, WireAll, LayAll;
    assert fs[..i + 1] == fs[..i] + [fs[i]];
    LayLast(buf, off, fs[..i], fs[i]);
  }

  lemma LayLast(buf: seq<byte>, off: nat, front: seq<Frame>, last: Frame)
    requires off + |WireAll(front + [last])| <= |buf|
    ensures |WireAll(front + [last])| == |WireAll(front)| + |Wire(last)|
    ensures LayAll(buf, off, front + [last]) == Splice(LayAll(buf, off, front), off + |WireAll(front)|, Wire(last))
  {
    hide Splice, Wire;
    assert (front + [last])[..|front|] == front;
  }

  /** Frames written into one buffer by calls of `Write` and then read by one call of `Read` arrive as messages, one
      for each frame, exactly when all fit and the last has a payload; buffer messages then show their whole payload
      in place. */
  method WriteThenRead(w: Parser, r: Parser, fs: seq<Frame>, off: nat)
    requires r.Valid() && r.Abs() == AtId && r.rb == w.wb
    requires forall f :: f in fs ==> f.id == SenderId(w.tid, w.pid) && f.op in {1, 2, 3}
    requires off + |WireAll(fs)| <= w.wb.Length
    modifies w.wb, r
    ensures r.Valid() && old(r.delivered) <= r.delivered
    ensures var ms := r.delivered[|old(r.delivered)|..];
            && (CarryAll(ms, fs) <==> AllFit(fs) && !EndsEmpty(fs))
            && (AllFit(fs) && !EndsEmpty(fs) ==> Reports(ms, fs, 0, r.rb[..off + |WireAll(fs)|]))
  {
    hide Feed, WireAll, LayAll, Resting, StateOf, Reports, CarryAll, EndsEmpty, AllFit;
    ghost var i, buf := |r.delivered|, w.wb[..];
    BatchRoundTrip(buf, off, fs);
    var end := WriteBatch(w, fs, off);
    r.Read(end, off);
    ghost var got := Feed(AtId, From(r.rb[..end], off)).frames;
    LayAllIsSplice(buf, off, fs);
    BatchArrives(r.delivered[i..], got, fs, r.rb[..end], From(r.rb[..end], off)) by {
      assert From(r.rb[..end], off) == WireAll(fs);
    }
  }

  lemma BatchArrives(ms: seq<Message>, got: seq<Frame>, fs: seq<Frame>, buf: seq<byte>, chunk: seq<byte>)
    requires chunk == WireAll(fs) && got == Feed(AtId, chunk).frames && Reports(ms, got, 0, buf)
    requires got == fs <==> AllFit(fs) && !EndsEmpty(fs)
    ensures CarryAll(ms, fs) <==> AllFit(fs) && !EndsEmpty(fs)
    ensures AllFit(fs) && !EndsEmpty(fs) ==> Reports(ms, fs, 0, buf)
  {
    hide Feed, WireAll, InPlace;
    FeedConserves(AtId, chunk);
    if CarryAll(ms, fs) {
      forall f | f in fs ensures Fits(f) {
        var k :| 0 <= k < |fs| && fs[k] == f;
        assert Carries(ms[k], got[k]) && Carries(ms[k], fs[k]) && got[k] in got;
      }
      Prompt(chunk, fs, 0);
    }
  }
}
