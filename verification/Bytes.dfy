/** Bytes, big-endian integers, and writes into a byte buffer.

  A `DataView` stores multi-byte integers big-endian unless told otherwise, and reduces the number it is
  given modulo the width of the field (section 25.3 of ECMA-262, 11th edition). `main.js` relies on both.
 */
module Bytes {

  type byte = x: int | 0 <= x < 256

  /** The longest string V8 can hold (`String::kMaxLength`). Text is one byte per character here. */
  const MAX_TEXT := 0x3FFF_FFFF - 24

  type Text = s: seq<byte> | |s| <= MAX_TEXT witness []

  datatype Option<+T> = None | Some(value: T)

  lemma Associative<T>(a: seq<T>, b: seq<T>, c: seq<T>)
    ensures a + b + c == a + (b + c)
  {
  }

  lemma TakeMore<T>(s: seq<T>, i: nat, n: nat)
    requires i + n <= |s|
    ensures s[..i] + s[i..i + n] == s[..i + n]
  {
  }

  /** The pieces of a text or stream, joined. */
  function Concat(pieces: seq<seq<byte>>): seq<byte> {
    if pieces == [] then [] else pieces[0] + Concat(pieces[1..])
  }

  function U8(n: nat): byte {
    n % 0x100
  }

  function BE16(n: nat): (r: seq<byte>)
    ensures |r| == 2
  {
    [n / 0x100 % 0x100, n % 0x100]
  }

  function BE32(n: nat): (r: seq<byte>)
    ensures |r| == 4
  {
    [n / 0x100_0000 % 0x100, n / 0x1_0000 % 0x100, n / 0x100 % 0x100, n % 0x100]
  }

  /** The number whose last byte is `lo` and whose other bytes are `hi`. */
  function Join(hi: nat, lo: nat): nat {
    hi * 0x100 + lo
  }

  function Get32(s: seq<byte>, off: nat): nat
    requires off + 4 <= |s|
  {
    Join(Join(Join(s[off], s[off + 1]), s[off + 2]), s[off + 3])
  }

  /** The last two bytes of a number. */
  lemma JoinBytes(n: nat)
    ensures n == Join(Join(n / 0x1_0000, n / 0x100 % 0x100), n % 0x100)
  {
    var a := n / 0x100;
    assert n == a * 0x100 + n % 0x100;
    assert a == n / 0x1_0000 * 0x100 + a % 0x100;
  }

  lemma {:induction false} BE16RoundTrip(n: nat)
    ensures Join(BE16(n)[0], BE16(n)[1]) == n % 0x1_0000
  {
    JoinBytes(n);
    assert n == n / 0x1_0000 * 0x1_0000 + Join(BE16(n)[0], BE16(n)[1]);
  }

  lemma BE16OfBytes(hi: byte, lo: byte)
    ensures BE16(Join(hi, lo)) == [hi, lo]
  {
  }

  /** The four bytes, as the two halves of the number. */
  lemma BE32Halves(n: nat)
    ensures BE32(n) == BE16(n / 0x1_0000) + BE16(n)
  {
    assert n / 0x1_0000 / 0x100 == n / 0x100_0000;
  }

  lemma {:induction false} Get32Halves(s: seq<byte>)
    requires |s| == 4
    ensures Get32(s, 0) == Join(s[0], s[1]) * 0x1_0000 + Join(s[2], s[3])
  {
  }

  lemma Halves(n: nat)
    ensures n % 0x1_0000_0000 == n / 0x1_0000 % 0x1_0000 * 0x1_0000 + n % 0x1_0000
  {
    var h := n / 0x1_0000;
    assert n == h * 0x1_0000 + n % 0x1_0000;
    assert h == h / 0x1_0000 * 0x1_0000 + h % 0x1_0000;
  }

  lemma {:induction false} BE32RoundTrip(n: nat)
    ensures Get32(BE32(n), 0) == n % 0x1_0000_0000
  {
    hide BE16, BE32, Get32, Join;
    BE32Halves(n);
    Get32Halves(BE32(n));
    BE16RoundTrip(n / 0x1_0000);
    BE16RoundTrip(n);
    Halves(n);
  }

  /** The buffer after `bs` has been stored at `off`. */
  function Splice(buf: seq<byte>, off: nat, bs: seq<byte>): (r: seq<byte>)
    requires off + |bs| <= |buf|
    ensures |r| == |buf|
    ensures forall i :: 0 <= i < |buf| ==> r[i] == if off <= i < off + |bs| then bs[i - off] else buf[i]
  {
    buf[..off] + bs + buf[off + |bs|..]
  }

  /** Storing `a` and then `b` right after it is storing `a + b`. */
  lemma SpliceAdjacent(buf: seq<byte>, off: nat, a: seq<byte>, b: seq<byte>)
    requires off + |a| + |b| <= |buf|
    ensures Splice(Splice(buf, off, a), off + |a|, b) == Splice(buf, off, a + b)
  {
  }

  /** `Buffer.write` and the `DataView` setters: stores `bs` at `off` and changes nothing else. */
  method Store(a: array<byte>, off: nat, bs: seq<byte>)
    requires off + |bs| <= a.Length
    modifies a
    ensures a[..] == Splice(old(a[..]), off, bs)
  {
    for i := 0 to |bs|
      invariant forall j :: 0 <= j < a.Length ==> a[j] == if off <= j < off + i then bs[j - off] else old(a[j])
    {
      a[off + i] := bs[i];
    }
    assert a[..] == Splice(old(a[..]), off, bs);
  }

  /** Part of a part of a buffer. */
  lemma SubSlice(a: array<byte>, lo: nat, hi: nat, i: nat, j: nat)
    requires lo <= hi <= a.Length && i <= j <= hi - lo
    ensures a[lo..hi][i..j] == a[lo + i..lo + j]
  {
    forall k | 0 <= k < j - i ensures a[lo..hi][i..j][k] == a[lo + i..lo + j][k] {
      assert a[lo..hi][i + k] == a[lo + (i + k)];
    }
  }

  // ----- records made of several fields, each stored separately

  datatype Field = Field(off: nat, bytes: seq<byte>)

  predicate Covers(f: Field, i: nat) {
    f.off <= i < f.off + |f.bytes|
  }

  /** No position belongs to two different fields. */
  ghost predicate Disjoint(fs: seq<Field>) {
    forall i: nat, f, g :: f in fs && g in fs && Covers(f, i) && Covers(g, i) ==> f == g
  }

  ghost predicate Within(fs: seq<Field>, n: nat) {
    forall f :: f in fs ==> f.off + |f.bytes| <= n
  }

  /** The buffer after the fields have been stored one by one, in the order of the list. */
  ghost function StoreAll(buf: seq<byte>, fs: seq<Field>): (r: seq<byte>)
    requires Within(fs, |buf|)
    ensures |r| == |buf|
  {
    if fs == [] then buf else
      var last := fs[|fs| - 1];
      assert last in fs;
      Splice(StoreAll(buf, fs[..|fs| - 1]), last.off, last.bytes)
  }

  lemma {:induction false} StoreAllAt(buf: seq<byte>, fs: seq<Field>, f: Field, i: nat)
    requires Within(fs, |buf|) && Disjoint(fs)
    requires f in fs && Covers(f, i)
    ensures StoreAll(buf, fs)[i] == f.bytes[i - f.off]
  {
    var last, front := fs[|fs| - 1], fs[..|fs| - 1];
    assert last in fs && fs == front + [last];
    if Covers(last, i) {
      assert last == f;
    } else {
      StoreAllAt(buf, front, f, i);
    }
  }

  ghost predicate Filled(fs: seq<Field>, i: nat) {
    exists f :: f in fs && Covers(f, i)
  }

  ghost predicate SameFields(fs: seq<Field>, gs: seq<Field>) {
    forall f :: f in fs <==> f in gs
  }

  lemma SameFieldsFit(fs: seq<Field>, gs: seq<Field>, n: nat)
    requires SameFields(fs, gs) && Within(fs, n) && Disjoint(fs)
    ensures Within(gs, n) && Disjoint(gs)
  {
  }

  /** When the fields of a record do not overlap and together fill it, the order of the writes does not matter. */
  lemma {:induction false} StoreOrderIrrelevant(a: seq<byte>, fs: seq<Field>, b: seq<byte>, gs: seq<Field>)
    requires |a| == |b| && Within(fs, |a|) && Disjoint(fs)
    requires Within(gs, |b|) && SameFields(fs, gs)
    requires forall i: nat :: i < |a| ==> Filled(fs, i)
    ensures StoreAll(a, fs) == StoreAll(b, gs)
  {
    SameFieldsFit(fs, gs, |a|);
    hide Disjoint, StoreAll;
    forall i: nat | i < |a| ensures StoreAll(a, fs)[i] == StoreAll(b, gs)[i] {
      assert Filled(fs, i);
      var f :| f in fs && Covers(f, i);
      StoreAllAt(a, fs, f, i);
      StoreAllAt(b, gs, f, i);
    }
  }
}
