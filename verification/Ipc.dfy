/** A connection between two threads, one direction of it: the sender's parser, the byte stream of the socket pair,
  and the receiver's parser (src/main.js:425-442, src/main.js:460-482).

  The socket is a reliable FIFO stream. A chunk holds at most what the receive buffer holds
  (src/modules/socket/socket.cc:219-226). `Socket::Write` takes a frame before it returns: what it cannot write at
  once it copies (src/modules/socket/socket.cc:628-640).
 */
module Ipc {
  import opened Bytes
  import opened Frames
  import opened MessageParser

  /** `reader` is the state of the receiving parser. */
  datatype Link = Link(sent: seq<Frame>, channel: seq<byte>, reader: State, delivered: seq<Frame>)

  const IDLE := Link([], [], AtId, [])

  datatype Event =
    | Send(frame: Frame)
    | Arrive(n: nat)

  function Apply(l: Link, e: Event): Link {
    match e
    case Send(f) => l.(sent := l.sent + [f], channel := l.channel + Wire(f))
    case Arrive(n) =>
      if |l.channel| < n then l else
        var r := Feed(l.reader, l.channel[..n]);
        l.(channel := l.channel[n..], reader := r.state, delivered := l.delivered + r.frames)
  }

  function Run(l: Link, es: seq<Event>): Link {
    if es == [] then l else Apply(Run(l, es[..|es| - 1]), es[|es| - 1])
  }

  /** The receiver has read what is no longer in the channel. */
  ghost predicate Accounted(l: Link) {
    var read := WireAll(l.delivered) + l.reader.Held();
    read + l.channel == WireAll(l.sent) && Feed(AtId, read) == Out(l.reader, l.delivered)
  }

  lemma ApplyAccounted(l: Link, e: Event)
    requires Accounted(l)
    ensures Accounted(Apply(l, e))
  {
    match e
    case Send(f) => SendAccounted(l, f);
    case Arrive(n) => if n <= |l.channel| { ArriveAccounted(l, n); }
  }

  lemma SendAccounted(l: Link, f: Frame)
    requires Accounted(l)
    ensures Accounted(Apply(l, Send(f)))
  {
    hide Feed, WireAll, Wire;
    assert (l.sent + [f])[..|l.sent|] == l.sent;
    WireAllLast(l.sent + [f]);
    Associative(WireAll(l.delivered) + l.reader.Held(), l.channel, Wire(f));
  }

  lemma ArriveAccounted(l: Link, n: nat)
    requires Accounted(l) && n <= |l.channel|
    ensures Accounted(Apply(l, Arrive(n)))
  {
    hide Feed, WireAll;
    var read, chunk, rest := WireAll(l.delivered) + l.reader.Held(), l.channel[..n], l.channel[n..];
    var r := Feed(l.reader, chunk);
    FeedSplit(AtId, read, chunk);
    FeedConserves(l.reader, chunk);
    WireAllConcat(l.delivered, r.frames);
    Associative(WireAll(l.delivered), WireAll(r.frames), r.state.Held());
    Associative(WireAll(l.delivered), l.reader.Held(), chunk);
    assert l.channel == chunk + rest;
    Associative(read, chunk, rest);
  }

  /** The frames that the events of a run send. */
  function SentIn(es: seq<Event>): seq<Frame> {
    if es == [] then [] else
      var last := es[|es| - 1];
      SentIn(es[..|es| - 1]) + if last.Send? then [last.frame] else []
  }

  /** How many bytes the events of a run leave on their way: a frame adds its header and payload, an arrival takes
      its bytes if there are as many. */
  function Pending(es: seq<Event>): nat {
    if es == [] then 0 else
      var before := Pending(es[..|es| - 1]);
      match es[|es| - 1]
      case Send(f) => before + 4 + |f.body|
      case Arrive(n) => if n <= before then before - n else before
  }

  lemma {:induction false} RunCounts(es: seq<Event>)
    ensures var l := Run(IDLE, es);
            l.sent == SentIn(es) && |l.channel| == Pending(es) && Accounted(l)
  {
    hide Accounted, Feed;
    if es == [] {
      IdleAccounted();
    } else {
      RunCounts(es[..|es| - 1]);
      ApplyAccounted(Run(IDLE, es[..|es| - 1]), es[|es| - 1]);
    }
  }

  lemma IdleAccounted()
    ensures Accounted(IDLE)
  {
    assert WireAll([]) == [];
  }

  /** Conservation over every run of sends and arrivals, whatever is sent and however the stream is cut: the bytes
      of the frames delivered, then the bytes the receiver holds, then those on their way, are the bytes sent. */
  lemma {:induction false} RunAccounted(es: seq<Event>)
    ensures var l := Run(IDLE, es);
            && l.sent == SentIn(es) && |l.channel| == Pending(es)
            && WireAll(l.delivered) + l.reader.Held() + l.channel == WireAll(SentIn(es))
  {
    hide Feed, Run, SentIn, Pending;
    RunCounts(es);
  }

  /** The state after any run, from its events alone: of the bytes of all frames sent, the last `Pending` are on their
      way, and the receiver has read the others. */
  lemma {:induction false} RunExactly(es: seq<Event>)
    ensures Pending(es) <= |WireAll(SentIn(es))|
    ensures var l, all := Run(IDLE, es), WireAll(SentIn(es));
            var n := |all| - Pending(es);
            && l.sent == SentIn(es) && l.channel == all[n..]
            && Out(l.reader, l.delivered) == Feed(AtId, all[..n])
  {
    hide Feed, Run, SentIn, Pending, WireAll;
    RunCounts(es);
    var l, all := Run(IDLE, es), WireAll(SentIn(es));
    var read := WireAll(l.delivered) + l.reader.Held();
    assert all == read + l.channel;
    assert all[|read|..] == l.channel && all[..|read|] == read;
  }

  lemma ReadThrough(l: Link)
    requires Accounted(l)
    ensures Feed(AtId, WireAll(l.sent)).frames == l.delivered + Feed(l.reader, l.channel).frames
  {
    FeedSplit(AtId, WireAll(l.delivered) + l.reader.Held(), l.channel);
  }

  /** Safety over every run in which all payloads fit: the delivered frames are the first of those sent, in order;
      none is lost, repeated, merged or split. */
  lemma {:induction false} DeliveredInOrder(es: seq<Event>)
    ensures AllFit(SentIn(es)) ==> Run(IDLE, es).delivered <= SentIn(es)
  {
    hide Feed, Run, SentIn;
    var l := Run(IDLE, es);
    RunCounts(es);
    ReadThrough(l);
    FaithfulExactlyWhenFits(l.sent);
    assert l.delivered <= l.delivered + Feed(l.reader, l.channel).frames;
  }

  /** Once everything has arrived: no frame that was not sent has been delivered exactly when all payloads fit; and
      then all have been, except that a last frame without payload stays with the receiver. */
  lemma {:induction false} WhenAllArrived(es: seq<Event>)
    ensures var l, sent := Run(IDLE, es), SentIn(es);
            Pending(es) == 0 ==>
              && l.channel == []
              && (l.delivered <= sent <==> AllFit(sent))
              && (AllFit(sent) ==> l.delivered == if EndsEmpty(sent) then sent[..|sent| - 1] else sent)
  {
    hide Run, SentIn, Pending;
    var l := Run(IDLE, es);
    RunCounts(es);
    if l.channel == [] {
      ReadThrough(l);
      FaithfulExactlyWhenFits(l.sent);
      if AllFit(l.sent) {
        Prompt(WireAll(l.sent), l.sent, 0);
      }
    }
  }

  /** Every run can be completed: one more arrival empties the channel, and the receiver has then read all that was
      sent. */
  lemma {:induction false} EverythingCanArrive(es: seq<Event>)
    ensures var more := es + [Arrive(Pending(es))];
            var l := Run(IDLE, more);
            && Pending(more) == 0 && SentIn(more) == SentIn(es)
            && l.channel == [] && Out(l.reader, l.delivered) == Feed(AtId, WireAll(SentIn(es)))
  {
    hide Feed, Run, WireAll, SentIn, Pending;
    ArrivesLast(es);
    RunExactly(es + [Arrive(Pending(es))]);
    var all := WireAll(SentIn(es));
    assert all[..|all|] == all && all[|all|..] == [];
  }

  lemma ArrivesLast(es: seq<Event>)
    ensures var more := es + [Arrive(Pending(es))];
            Pending(more) == 0 && SentIn(more) == SentIn(es)
  {
    var more := es + [Arrive(Pending(es))];
    assert more[..|es|] == es && more[|es|] == Arrive(Pending(es));
  }

  class Connection {
    const sender: Parser
    const receiver: Parser
    var channel: seq<byte>
    ghost var sent: seq<Frame>
    /** The frames the receiver's messages stand for. */
    ghost var received: seq<Frame>

    ghost predicate Valid()
      reads this, receiver
    {
      && receiver.Valid()
      && sender.wb != receiver.rb
      && |receiver.delivered| == |received|
      && (forall k :: 0 <= k < |received| ==> Carries(receiver.delivered[k], received[k]))
      && Accounted(Abs())
      && (forall f :: f in sent ==> |Wire(f)| <= sender.wb.Length)
    }

    ghost function Abs(): Link
      requires receiver.Valid()
      reads this, receiver
    {
      Link(sent, channel, receiver.Abs(), received)
    }

    constructor (sender: Parser, receiver: Parser)
      requires receiver.Valid() && receiver.Abs() == AtId && receiver.delivered == [] && sender.wb != receiver.rb
      ensures Valid() && Abs() == IDLE && channel == [] && sent == [] && received == []
      ensures this.sender == sender && this.receiver == receiver
    {
      this.sender, this.receiver := sender, receiver;
      channel, sent, received := [], [], [];
    }

    /** At every moment, when what was sent fits, the messages received are the first of the frames sent. */
    lemma {:induction false} ReceivedInOrder()
      requires Valid() && AllFit(sent)
      ensures received <= sent
      ensures forall k :: 0 <= k < |receiver.delivered| ==> Carries(receiver.delivered[k], sent[k])
    {
      hide Feed, WireAll;
      ReadThrough(Abs());
      FaithfulExactlyWhenFits(sent);
      assert received <= received + Feed(receiver.Abs(), channel).frames;
    }

    /** All that a send buffer of up to 65539 bytes can hold fits. It has 1024 bytes unless configured otherwise. */
    lemma {:induction false} BufferKeepsFit()
      requires Valid() && sender.wb.Length <= 0xFFFF + 4
      ensures AllFit(sent)
    {
      forall f | f in sent ensures Fits(f) {
        assert |Wire(f)| <= sender.wb.Length;
      }
    }

    /** `send`: the frame of an object, given as its JSON text. */
    method SendObject(json: seq<byte>) returns (ok: bool)
      requires Valid() && (4 <= sender.wb.Length ==> 4 + |json| <= sender.wb.Length)
      modifies this, sender.wb
      ensures Valid() && ok == (4 <= sender.wb.Length)
      ensures !ok ==> Abs() == old(Abs())
      ensures ok ==>
                var f := Frame(SenderId(sender.tid, sender.pid), 1, json);
                && channel == old(channel) + Wire(f) && sent == old(sent) + [f]
                && received == old(received) && Abs() == Apply(old(Abs()), Send(f))
    {
      hide Wire;
      var r := sender.Write(json);
      ok := r.Some?;
      if ok {
        SpliceAtStart(old(sender.wb[..]), Wire(Frame(SenderId(sender.tid, sender.pid), JSON, json)));
        assert sender.wb[..r.value] == sender.wb[..][..r.value];
        Transmit(r.value, Frame(SenderId(sender.tid, sender.pid), JSON, json));
      }
    }

    method SendString(s: seq<byte>) returns (ok: bool)
      requires Valid() && (4 <= sender.wb.Length ==> 4 + |s| <= sender.wb.Length)
      modifies this, sender.wb
      ensures Valid() && ok == (4 <= sender.wb.Length)
      ensures !ok ==> Abs() == old(Abs())
      ensures ok ==>
                var f := Frame(SenderId(sender.tid, sender.pid), 2, s);
                && channel == old(channel) + Wire(f) && sent == old(sent) + [f]
                && received == old(received) && Abs() == Apply(old(Abs()), Send(f))
    {
      hide Wire;
      var r := sender.Write(s, STRING);
      ok := r.Some?;
      if ok {
        SpliceAtStart(old(sender.wb[..]), Wire(Frame(SenderId(sender.tid, sender.pid), STRING, s)));
        assert sender.wb[..r.value] == sender.wb[..][..r.value];
        Transmit(r.value, Frame(SenderId(sender.tid, sender.pid), STRING, s));
      }
    }

    /** `sendBuffer`: the payload is what the caller has put behind the first four bytes of the send buffer. */
    method SendBuffer(size: nat) returns (ok: bool)
      requires Valid() && (4 <= sender.wb.Length ==> 4 + size <= sender.wb.Length)
      modifies this, sender.wb
      ensures Valid() && ok == (4 <= sender.wb.Length)
      ensures !ok ==> Abs() == old(Abs())
      ensures ok ==>
                var f := Frame(SenderId(sender.tid, sender.pid), 3, old(sender.wb[4..4 + size]));
                && channel == old(channel) + Wire(f) && sent == old(sent) + [f]
                && received == old(received) && Abs() == Apply(old(Abs()), Send(f))
    {
      hide Wire, Header, Splice, Accounted, SenderId;
      ghost var was := sender.wb[..];
      var r := sender.Write([], BUFFER, 0, size);
      ok := r.Some?;
      if ok {
        BufferFrameInPlace(was, 0, SenderId(sender.tid, sender.pid), size);
        assert was[4..4 + size] == old(sender.wb[4..4 + size]);
        Transmit(r.value, Frame(SenderId(sender.tid, sender.pid), BUFFER, old(sender.wb[4..4 + size])));
      }
    }

    /** `sock.write(len)`. */
    method Transmit(len: nat, ghost f: Frame)
      requires Valid() && len <= sender.wb.Length && sender.wb[..len] == Wire(f)
      modifies this
      ensures Valid() && Abs() == Apply(old(Abs()), Send(f))
      ensures channel == old(channel) + sender.wb[..len] && sent == old(sent) + [f] && received == old(received)
    {
      hide Wire, Accounted;
      ApplyAccounted(Abs(), Send(f));
      channel := channel + sender.wb[..len];
      sent := sent + [f];
    }

    /** `sock.onRead`: the next `n` bytes are put into the receive buffer, over those of the last chunk, and read.
        The new frames and what the receiver then holds make up what it held and these bytes; the new messages are
        the new frames, buffer messages with their payload in place. */
    method OnRead(n: nat)
      requires Valid() && 0 < n <= |channel| && n <= receiver.rb.Length
      modifies this, receiver, receiver.rb
      ensures Valid() && Abs() == Apply(old(Abs()), Arrive(n))
      ensures channel == old(channel)[n..] && sent == old(sent)
      ensures old(received) <= received && old(receiver.delivered) <= receiver.delivered
      ensures WireAll(received[|old(received)|..]) + receiver.Abs().Held()
           == old(receiver.Abs()).Held() + old(channel)[..n]
      ensures Reports(receiver.delivered[|old(receiver.delivered)|..], received[|old(received)|..],
                      Carried(old(receiver.Abs())), receiver.rb[..n])
    {
      hide Feed, WireAll, Resting, InPlace, AllFit, Accounted;
      ghost var r := Feed(receiver.Abs(), channel[..n]);
      ApplyAccounted(Abs(), Arrive(n));
      FeedConserves(receiver.Abs(), channel[..n]);
      Store(receiver.rb, 0, channel[..n]);
      assert From(receiver.rb[..n], 0) == channel[..n];
      receiver.Read(n);
      channel := channel[n..];
      received := received + r.frames;
      assert received[|old(received)|..] == r.frames;
    }
  }

  lemma SpliceAtStart(buf: seq<byte>, bs: seq<byte>)
    requires |bs| <= |buf|
    ensures Splice(buf, 0, bs)[..|bs|] == bs
  {
  }
}
