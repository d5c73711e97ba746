/** The start-up record that `process.spawn` builds for a new thread (src/main.js:451-455, 481-492) and that the
  thread decodes (src/main.js:409-421): thread id, socket descriptor, environment and arguments.
 */
module Handshake {
  import opened Bytes
  import opened Frames
  import opened MessageParser

  /** `fd` is 0 for a thread without a socket. `env` and `args` are JSON texts. */
  datatype Boot = Boot(fd: nat, env: Text, args: Text)

  function Size(b: Boot): nat {
    |b.env| + |b.args| + 13
  }

  function Record(id: nat, b: Boot): (r: seq<byte>)
    ensures |r| == Size(b)
  {
    [U8(id)] + BE32(b.fd) + BE32(|b.env|) + b.env + BE32(|b.args|) + b.args
  }

  /** The six writes, in the order of the source. */
  function Fields(id: nat, b: Boot): seq<Field> {
    [Field(1, BE32(b.fd)),
     Field(0, [U8(id)]),
     Field(5, BE32(|b.env|)),
     Field(9, b.env),
     Field(|b.env| + 9, BE32(|b.args|)),
     Field(|b.env| + 13, b.args)]
  }

  method WriteRecord(buf: array<byte>, id: nat, b: Boot)
    requires buf.Length == Size(b)
    modifies buf
    ensures buf[..] == Record(id, b)
    ensures var r, n, m := buf[..], |b.env|, |b.args|;
            && r[0] == id % 0x100
            && r[1..5] == [b.fd / 0x100_0000 % 0x100, b.fd / 0x1_0000 % 0x100, b.fd / 0x100 % 0x100, b.fd % 0x100]
            && r[5..9] == [n / 0x100_0000 % 0x100, n / 0x1_0000 % 0x100, n / 0x100 % 0x100, n % 0x100]
            && r[9..9 + n] == b.env
            && r[9 + n..13 + n] == [m / 0x100_0000 % 0x100, m / 0x1_0000 % 0x100, m / 0x100 % 0x100, m % 0x100]
            && r[13 + n..] == b.args
  {
    hide Record, Fields, BE32, StoreAll, Splice;
    ghost var fs := Fields(id, b);
    FieldsAre(id, b);
    FieldsTile(id, b);
    StoreAllPrefixes(buf[..], fs);
    Store(buf, 1, BE32(b.fd));
    Store(buf, 0, [U8(id)]);
    Store(buf, 5, BE32(|b.env|));
    Store(buf, 9, b.env);
    Store(buf, |b.env| + 9, BE32(|b.args|));
    Store(buf, |b.env| + 13, b.args);
    AnyOrder(old(buf[..]), fs, id, b);
    RecordBytes(id, b);
  }

  lemma FieldsAre(id: nat, b: Boot)
    ensures var fs := Fields(id, b);
            && |fs| == 6
            && fs[0] == Field(1, BE32(b.fd)) && fs[1] == Field(0, [U8(id)]) && fs[2] == Field(5, BE32(|b.env|))
            && fs[3] == Field(9, b.env) && fs[4] == Field(|b.env| + 9, BE32(|b.args|))
            && fs[5] == Field(|b.env| + 13, b.args)
  {
  }

  lemma RecordBytes(id: nat, b: Boot)
    ensures var r, n, m := Record(id, b), |b.env|, |b.args|;
            && r[0] == id % 0x100
            && r[1..5] == [b.fd / 0x100_0000 % 0x100, b.fd / 0x1_0000 % 0x100, b.fd / 0x100 % 0x100, b.fd % 0x100]
            && r[5..9] == [n / 0x100_0000 % 0x100, n / 0x1_0000 % 0x100, n / 0x100 % 0x100, n % 0x100]
            && r[9..9 + n] == b.env
            && r[9 + n..13 + n] == [m / 0x100_0000 % 0x100, m / 0x1_0000 % 0x100, m / 0x100 % 0x100, m % 0x100]
            && r[13 + n..] == b.args
  {
    RecordParts(id, b);
    hide Record;
  }

  lemma RecordParts(id: nat, b: Boot)
    ensures var r, n := Record(id, b), |b.env|;
            && r[0] == U8(id)
            && r[1..5] == BE32(b.fd) && r[5..9] == BE32(n) && r[9..9 + n] == b.env
            && r[9 + n..13 + n] == BE32(|b.args|) && r[13 + n..] == b.args
  {
    hide BE32;
  }

  lemma {:induction false} StoreAllPrefixes(buf: seq<byte>, fs: seq<Field>)
    requires |fs| == 6 && Within(fs, |buf|)
    ensures var s1 := Splice(buf, fs[0].off, fs[0].bytes);
            var s2 := Splice(s1, fs[1].off, fs[1].bytes);
            var s3 := Splice(s2, fs[2].off, fs[2].bytes);
            var s4 := Splice(s3, fs[3].off, fs[3].bytes);
            var s5 := Splice(s4, fs[4].off, fs[4].bytes);
            StoreAll(buf, fs) == Splice(s5, fs[5].off, fs[5].bytes)
  {
    hide Splice;
    assert fs[..5][..4] == fs[..4] && fs[..4][..3] == fs[..3] && fs[..3][..2] == fs[..2];
    assert fs[..2][..1] == fs[..1] && fs[..1][..0] == [];
    assert StoreAll(buf, fs[..1]) == Splice(buf, fs[0].off, fs[0].bytes);
    assert StoreAll(buf, fs[..2]) == Splice(StoreAll(buf, fs[..1]), fs[1].off, fs[1].bytes);
    assert StoreAll(buf, fs[..3]) == Splice(StoreAll(buf, fs[..2]), fs[2].off, fs[2].bytes);
    assert StoreAll(buf, fs[..4]) == Splice(StoreAll(buf, fs[..3]), fs[3].off, fs[3].bytes);
    assert StoreAll(buf, fs[..5]) == Splice(StoreAll(buf, fs[..4]), fs[4].off, fs[4].bytes);
  }

  /** The fields do not overlap and leave no gap. */
  lemma {:induction false} FieldsTile(id: nat, b: Boot)
    ensures Within(Fields(id, b), Size(b)) && Disjoint(Fields(id, b))
    ensures forall i: nat :: i < Size(b) ==> Filled(Fields(id, b), i)
  {
    hide BE32, Disjoint, Filled;
    FieldsDisjoint(id, b);
    FieldsFill(id, b);
  }

  /** Which of the six fields a position belongs to. */
  function FieldAt(b: Boot, i: nat): nat {
    if i == 0 then 1 else if i < 5 then 0 else if i < 9 then 2 else if i < |b.env| + 9 then 3
    else if i < |b.env| + 13 then 4 else 5
  }

  lemma FieldsDisjoint(id: nat, b: Boot)
    ensures Disjoint(Fields(id, b))
  {
    hide Covers, Fields, FieldAt;
    var fs := Fields(id, b);
    forall i: nat, f, g | f in fs && g in fs && Covers(f, i) && Covers(g, i) ensures f == g {
      FieldOf(id, b, f, i);
      FieldOf(id, b, g, i);
    }
  }

  lemma FieldOf(id: nat, b: Boot, f: Field, i: nat)
    requires f in Fields(id, b) && Covers(f, i)
    ensures f == Fields(id, b)[FieldAt(b, i)]
  {
    hide BE32;
  }

  lemma FieldsFill(id: nat, b: Boot)
    ensures forall i: nat :: i < Size(b) ==> Filled(Fields(id, b), i)
  {
    hide BE32;
    var fs := Fields(id, b);
    forall i: nat | i < Size(b) ensures Filled(fs, i) {
      assert fs[FieldAt(b, i)] in fs && Covers(fs[FieldAt(b, i)], i);
    }
  }

  lemma FieldsInRecord(id: nat, b: Boot)
    ensures forall k :: 0 <= k < 6 ==>
              var f := Fields(id, b)[k];
              f.off + |f.bytes| <= Size(b) && Record(id, b)[f.off..f.off + |f.bytes|] == f.bytes
  {
    hide BE32;
    var r, n := Record(id, b), |b.env|;
    assert r[0..1] == [U8(id)];
    assert r[1..5] == BE32(b.fd);
    assert r[5..9] == BE32(n);
    assert r[9..9 + n] == b.env;
    assert r[n + 9..n + 13] == BE32(|b.args|);
    assert r[n + 13..] == b.args;
  }

  lemma FieldsMatch(id: nat, b: Boot)
    ensures forall f :: f in Fields(id, b) ==>
              f.off + |f.bytes| <= Size(b) && Record(id, b)[f.off..f.off + |f.bytes|] == f.bytes
  {
    hide Record;
    FieldsInRecord(id, b);
  }

  lemma {:induction false} StoreAllSame(buf: seq<byte>, fs: seq<Field>)
    requires Within(fs, |buf|)
    requires forall f :: f in fs ==> buf[f.off..f.off + |f.bytes|] == f.bytes
    ensures StoreAll(buf, fs) == buf
    decreases |fs|
  {
    if fs != [] {
      var last := fs[|fs| - 1];
      assert last in fs;
      StoreAllSame(buf, fs[..|fs| - 1]);
      var end := last.off + |last.bytes|;
      assert forall i :: last.off <= i < end ==> buf[i] == buf[last.off..end][i - last.off];
    }
  }

  lemma SameElements(fs: seq<Field>, gs: seq<Field>)
    requires multiset(gs) == multiset(fs)
    ensures SameFields(fs, gs)
  {
    forall f ensures f in fs <==> f in gs {
      assert f in gs <==> f in multiset(gs);
      assert f in fs <==> f in multiset(fs);
    }
  }

  /** The six writes give the same record in any order, whatever was in the buffer. */
  lemma {:induction false} AnyOrder(buf: seq<byte>, gs: seq<Field>, id: nat, b: Boot)
    requires |buf| == Size(b) && multiset(gs) == multiset(Fields(id, b))
    ensures Within(gs, |buf|) && StoreAll(buf, gs) == Record(id, b)
  {
    hide Fields, Record, Disjoint, Filled, Covers, StoreAll;
    var fs := Fields(id, b);
    FieldsTile(id, b);
    FieldsMatch(id, b);
    SameElements(fs, gs);
    SameFieldsFit(fs, gs, |buf|);
    StoreAllSame(Record(id, b), fs);
    StoreOrderIrrelevant(Record(id, b), fs, buf, gs);
  }

  datatype Worker = Worker(tid: nat, fd: nat, env: seq<byte>, args: seq<byte>)

  /** What a thread makes of its start-up record. `None` stands for a record that ends too early. */
  function Decode(d: seq<byte>): Option<Worker> {
    if |d| < 9 then None else
      var envLength := Get32(d, 5);
      if |d| < 13 + envLength then None else
        var argsLength := Get32(d, 9 + envLength);
        if |d| < 13 + envLength + argsLength then None else
          Some(Worker(d[0], Get32(d, 1), d[9..9 + envLength],
                      d[13 + envLength..13 + envLength + argsLength]))
  }

  lemma {:induction false} Get32At(s: seq<byte>, off: nat, n: nat)
    requires off + 4 <= |s| && s[off..off + 4] == BE32(n)
    ensures Get32(s, off) == n % 0x1_0000_0000
  {
    BE32RoundTrip(n);
    var t := s[off..off + 4];
    assert t[0] == s[off] && t[1] == s[off + 1] && t[2] == s[off + 2] && t[3] == s[off + 3];
  }

  lemma {:induction false} Get32Bytes(s: seq<byte>, off: nat)
    requires off + 4 <= |s|
    ensures Get32(s, off) < 0x1_0000_0000 && BE32(Get32(s, off)) == s[off..off + 4]
  {
    hide BE32, BE16;
    var n, t := Get32(s, off), s[off..off + 4];
    Get32Halves(t);
    BE32Halves(n);
    SameLengthField(n);
    BE16OfBytes(t[0], t[1]);
    BE16OfBytes(t[2], t[3]);
    assert n / 0x1_0000 == Join(t[0], t[1]) && n % 0x1_0000 == Join(t[2], t[3]);
    assert t == [t[0], t[1]] + [t[2], t[3]];
  }

  /** A thread decodes exactly what was put into its record: the texts in full, the id modulo 256. */
  lemma {:induction false} RecordRoundTrip(id: nat, b: Boot)
    ensures Decode(Record(id, b)) == Some(Worker(id % 0x100, b.fd % 0x1_0000_0000, b.env, b.args))
  {
    hide Get32, BE32, Record;
    var r, fs, n := Record(id, b), Fields(id, b), |b.env|;
    FieldsInRecord(id, b);
    assert r[1..5] == fs[0].bytes && r[5..9] == fs[2].bytes && r[9..9 + n] == fs[3].bytes;
    assert r[9 + n..9 + n + 4] == fs[4].bytes && r[13 + n..13 + n + |b.args|] == fs[5].bytes;
    Get32At(r, 1, b.fd);
    Get32At(r, 5, n);
    Get32At(r, 9 + n, |b.args|);
    assert r[0..1] == fs[1].bytes;
    assert r[0] == r[0..1][0];
  }

  /** A record decodes to `w` exactly if it begins with the six fields that say so; what comes behind is ignored. */
  lemma {:induction false} DecodesExactly(d: seq<byte>, w: Worker)
    ensures Decode(d) == Some(w) <==>
              && w.tid < 0x100 && w.fd < 0x1_0000_0000 && |w.env| < 0x1_0000_0000 && |w.args| < 0x1_0000_0000
              && [w.tid] + BE32(w.fd) + BE32(|w.env|) + w.env + BE32(|w.args|) + w.args <= d
  {
    hide Get32, BE32, Decode;
    if Decode(d) == Some(w) {
      DecodedFields(d, w);
    }
    if w.tid < 0x100 && w.fd < 0x1_0000_0000 && |w.env| < 0x1_0000_0000 && |w.args| < 0x1_0000_0000
       && [w.tid] + BE32(w.fd) + BE32(|w.env|) + w.env + BE32(|w.args|) + w.args <= d
    {
      FieldsDecode(d, w);
    }
  }

  lemma DecodedFields(d: seq<byte>, w: Worker)
    requires Decode(d) == Some(w)
    ensures w.tid < 0x100 && w.fd < 0x1_0000_0000 && |w.env| < 0x1_0000_0000 && |w.args| < 0x1_0000_0000
    ensures [w.tid] + BE32(w.fd) + BE32(|w.env|) + w.env + BE32(|w.args|) + w.args <= d
  {
    hide Get32, BE32;
    var n, m := |w.env|, |w.args|;
    Get32Bytes(d, 1);
    Get32Bytes(d, 5);
    Get32Bytes(d, 9 + n);
    assert d[..13 + n + m] == d[..1] + d[1..5] + d[5..9] + d[9..9 + n] + d[9 + n..13 + n] + d[13 + n..13 + n + m];
  }

  lemma FieldsDecode(d: seq<byte>, w: Worker)
    requires w.tid < 0x100 && w.fd < 0x1_0000_0000 && |w.env| < 0x1_0000_0000 && |w.args| < 0x1_0000_0000
    requires [w.tid] + BE32(w.fd) + BE32(|w.env|) + w.env + BE32(|w.args|) + w.args <= d
    ensures Decode(d) == Some(w)
  {
    hide Get32, BE32;
    var n, m := |w.env|, |w.args|;
    SixParts([w.tid], BE32(w.fd), BE32(n), w.env, BE32(m), w.args, d);
    assert d[0] == d[..1][0];
    Get32At(d, 1, w.fd);
    Get32At(d, 5, n);
    Get32At(d, 9 + n, m);
  }

  lemma SixParts(p: seq<byte>, q: seq<byte>, r: seq<byte>, s: seq<byte>, t: seq<byte>, u: seq<byte>, d: seq<byte>)
    requires p + q + r + s + t + u <= d && |p| == 1 && |q| == 4 && |r| == 4 && |t| == 4
    ensures var n := |s|;
            && d[..1] == p && d[1..5] == q && d[5..9] == r && d[9..9 + n] == s && d[9 + n..13 + n] == t
            && d[13 + n..13 + n + |u|] == u
  {
    assert d[..13 + |s| + |u|] == p + q + r + s + t + u;
  }

  /** From `spawn` to `onMessage`: the id on a thread's messages is the id it was spawned with exactly for the first
      255 threads. Every 256th thread stamps its messages as the main process does. */
  lemma {:induction false} ThreadIdentity(id: nat, b: Boot, pid: nat, op: byte, body: seq<byte>)
    requires 0 < id && 0 < |body| < 0x1_0000
    ensures Decode(Record(id, b)).Some?
    ensures var frames := Feed(AtId, Wire(Frame(SenderId(Decode(Record(id, b)).value.tid, pid), op, body))).frames;
            && |frames| == 1
            && (frames[0].id == id <==> id < 0x100)
            && (id % 0x100 == 0 ==> frames[0].id == pid % 0x100)
  {
    hide Feed, Record, Decode;
    RecordRoundTrip(id, b);
    OneFrameRoundTrip(Frame(SenderId(U8(id), pid), op, body));
  }
}
