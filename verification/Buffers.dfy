/** Two loops over buffers that native code fills: `readFile` (src/main.js:53-69) and `activeHandles`
  (src/main.js:333-348).
 */
module Buffers {
  import opened Bytes

  const BUFFER_SIZE := 16384

  // ----- readFile

  /** `File::Read` passes the offset through 32 bits (src/modules/fs/fs.cc:74-94). */
  function Offset32(off: nat): nat {
    off % 0x1_0000_0000
  }

  lemma SmallOffset(off: nat)
    ensures Offset32(off) < 0x1_0000_0000 && (off < 0x1_0000_0000 ==> Offset32(off) == off)
  {
  }

  function Total(rs: seq<int>): int {
    if rs == [] then 0 else Total(rs[..|rs| - 1]) + rs[|rs| - 1]
  }

  /** What `file.read` may return for a file of `n` bytes: a negative error at any time, as many bytes as there are
      from the offset on or fewer, or 0 when there are none. */
  predicate Answer(n: nat, off: nat, r: int) {
    && r <= BUFFER_SIZE
    && (0 < r ==> Offset32(off) + r <= n)
    && (r == 0 ==> n <= Offset32(off))
  }

  /** The answers to the reads of a loop that has not ended yet: each read starts where the sizes add up to. */
  ghost predicate Turning(n: nat, rs: seq<int>) {
    rs != [] ==>
      var front, last := rs[..|rs| - 1], rs[|rs| - 1];
      Turning(n, front) && 0 <= Total(front) && 0 < last && Answer(n, Total(front), last)
  }

  /** The answers to all reads of a loop that has ended. */
  ghost predicate Ended(n: nat, rs: seq<int>) {
    && rs != []
    && var front, last := rs[..|rs| - 1], rs[|rs| - 1];
       Turning(n, front) && 0 <= Total(front) && last <= 0 && Answer(n, Total(front), last)
  }

  /** The bytes that the reads brought in. */
  ghost function Pieces(content: seq<byte>, rs: seq<int>): seq<byte>
    requires Turning(|content|, rs)
  {
    if rs == [] then [] else
      var front, last := rs[..|rs| - 1], rs[|rs| - 1];
      var off := Offset32(Total(front));
      Pieces(content, front) + content[off..off + last]
  }

  /** As long as the offsets have not wrapped around, the bytes read are the beginning of the file. */
  lemma {:induction false} PiecesArePrefix(content: seq<byte>, rs: seq<int>)
    requires Turning(|content|, rs) && Total(rs) < 0x1_0000_0000
    ensures |rs| <= Total(rs) <= |content| && Pieces(content, rs) == content[..Total(rs)]
    decreases |rs|
  {
    hide Offset32;
    if rs != [] {
      var front, last := rs[..|rs| - 1], rs[|rs| - 1];
      PiecesArePrefix(content, front);
      SmallOffset(Total(front));
      TakeMore(content, Total(front), last);
    }
  }

  /** Below 4 GiB every read makes progress towards the end. */
  lemma {:induction false} TurnsBounded(n: nat, rs: seq<int>)
    requires Turning(n, rs) && n < 0x1_0000_0000
    ensures |rs| <= Total(rs) <= n
    decreases |rs|
  {
    if rs != [] {
      TurnsBounded(n, rs[..|rs| - 1]);
    }
  }

  ghost function Ones(k: nat): seq<int> {
    if k == 0 then [] else Ones(k - 1) + [1]
  }

  lemma NoTurns(n: nat)
    ensures Total([]) == 0 && Turning(n, [])
  {
  }

  lemma OneMoreTurn(n: nat, rs: seq<int>, r: int)
    requires Turning(n, rs) && 0 <= Total(rs) && 0 < r && Answer(n, Total(rs), r)
    ensures Turning(n, rs + [r]) && Total(rs + [r]) == Total(rs) + r
  {
    assert (rs + [r])[..|rs|] == rs;
  }

  /** A file system that hands out single bytes. */
  lemma {:induction false} OnesTurn(n: nat, k: nat)
    requires 0x1_0000_0000 <= n || k <= n < 0x1_0000_0000
    ensures |Ones(k)| == k && Total(Ones(k)) == k && Turning(n, Ones(k))
    decreases k
  {
    hide Offset32, Total, Turning;
    if k == 0 {
      NoTurns(n);
    } else {
      SmallOffset(k - 1);
      OnesTurn(n, k - 1);
      OneMoreTurn(n, Ones(k - 1), 1);
    }
  }

  ghost predicate CanTurn(n: nat, k: nat) {
    exists rs: seq<int> :: |rs| == k && Turning(n, rs)
  }

  /** If reads do not fail, the loop has to end for exactly the files below 4 GiB; from there on it can go on for any
      number of turns. */
  lemma {:induction false} LoopEndsExactlyBelow4GiB(n: nat)
    ensures (forall k: nat :: CanTurn(n, k)) <==> 0x1_0000_0000 <= n
    ensures n < 0x1_0000_0000 ==> forall k: nat :: CanTurn(n, k) ==> k <= n
  {
    hide Turning;
    forall k: nat | 0x1_0000_0000 <= n ensures CanTurn(n, k) {
      OnesTurn(n, k);
      assert |Ones(k)| == k && Turning(n, Ones(k));
    }
    forall k: nat | n < 0x1_0000_0000 && CanTurn(n, k) ensures k <= n {
      var rs: seq<int> :| |rs| == k && Turning(n, rs);
      TurnsBounded(n, rs);
    }
    assert n < 0x1_0000_0000 && CanTurn(n, n + 1) ==> n + 1 <= n;
  }

  /** A loop that ends by finding the end of the file exists for exactly the files below 4 GiB. */
  lemma {:induction false} EndFoundExactlyBelow4GiB(n: nat)
    ensures (exists rs: seq<int> :: Ended(n, rs) && rs[|rs| - 1] == 0) <==> n < 0x1_0000_0000
  {
    if n < 0x1_0000_0000 {
      OnesTurn(n, n);
      var rs := Ones(n) + [0];
      assert rs[..|rs| - 1] == Ones(n);
      assert Ended(n, rs) && rs[|rs| - 1] == 0;
    }
  }

  /** `file.read`, which returns `answer`. */
  method FileRead(content: seq<byte>, buf: array<byte>, off: nat, answer: int) returns (len: int)
    requires buf.Length == BUFFER_SIZE && Answer(|content|, off, answer)
    modifies buf
    ensures len == answer
    ensures 0 < len ==> buf[..len] == content[Offset32(off)..Offset32(off) + len]
  {
    len := answer;
    if 0 < len {
      Store(buf, 0, content[Offset32(off)..Offset32(off) + len]);
    }
  }

  lemma {:induction false} ConcatAppend(parts: seq<seq<byte>>, p: seq<byte>)
    ensures Concat(parts + [p]) == Concat(parts) + p
    decreases |parts|
  {
    if parts == [] {
      assert [p][1..] == [] && Concat([p]) == p + [];
    } else {
      assert (parts + [p])[1..] == parts[1..] + [p];
      ConcatAppend(parts[1..], p);
      Associative(parts[0], Concat(parts[1..]), p);
    }
  }

  lemma OneMorePiece(content: seq<byte>, front: seq<int>, r: int)
    requires Turning(|content|, front + [r])
    ensures Turning(|content|, front) && 0 < r && 0 <= Total(front) && Answer(|content|, Total(front), r)
    ensures Total(front + [r]) == Total(front) + r
    ensures Offset32(Total(front)) + r <= |content|
    ensures Pieces(content, front + [r]) ==
            Pieces(content, front) + content[Offset32(Total(front))..Offset32(Total(front)) + r]
  {
    hide Turning, Total, Offset32, Pieces, Answer;
    var rs := front + [r];
    assert rs[..|rs| - 1] == front && rs[|rs| - 1] == r;
    LastPiece(content, rs);
  }

  lemma LastPiece(content: seq<byte>, rs: seq<int>)
    requires rs != [] && Turning(|content|, rs)
    ensures var front, last := rs[..|rs| - 1], rs[|rs| - 1];
            && Turning(|content|, front) && 0 < last && 0 <= Total(front) && Answer(|content|, Total(front), last)
            && Total(rs) == Total(front) + last
            && Offset32(Total(front)) + last <= |content|
            && Pieces(content, rs) ==
               Pieces(content, front) + content[Offset32(Total(front))..Offset32(Total(front)) + last]
  {
    hide Offset32;
  }

  lemma {:induction false} TurningTake(n: nat, rs: seq<int>, j: nat)
    requires Turning(n, rs) && j <= |rs|
    ensures Turning(n, rs[..j])
    decreases |rs|
  {
    hide Answer, Total;
    if j < |rs| {
      var front := rs[..|rs| - 1];
      TurningTake(n, front, j);
      assert front[..j] == rs[..j];
    } else {
      assert rs[..j] == rs;
    }
  }

  /** For every file and every run of the loop that ends, `answers` being what the reads return: `size` is the sum of
      the reads, and the text is what they brought in. Before the offsets wrap around that is the beginning of the
      file, and the whole file if the last read found the end. A read error ends the text as well, and is not
      reported. */
  method ReadFile(content: seq<byte>, answers: seq<int>) returns (text: seq<byte>, size: nat)
    requires Ended(|content|, answers)
    ensures var got := answers[..|answers| - 1];
            size == Total(got) && text == Pieces(content, got)
    ensures size < 0x1_0000_0000 ==> size <= |content| && text == content[..size]
    ensures answers[|answers| - 1] == 0 ==> size == |content| && text == content
  {
    hide Concat, Pieces, Turning, Total, Answer;
    ghost var got := answers[..|answers| - 1];
    var buf := new byte[BUFFER_SIZE];
    var parts: seq<seq<byte>> := [];
    var k := 0;
    size := 0;
    NothingRead(content);
    FirstRead(|content|, answers);
    var len := FileRead(content, buf, size, answers[0]);
    while 0 < len
      invariant k <= |got| && len == answers[k] && (len <= 0 ==> k == |got|)
      invariant Turning(|content|, got[..k]) && size == Total(got[..k])
      invariant Concat(parts) == Pieces(content, got[..k])
      invariant 0 < len ==> len <= BUFFER_SIZE && Offset32(size) + len <= |content|
                            && buf[..len] == content[Offset32(size)..Offset32(size) + len]
      decreases |got| - k
    {
      NotLast(|content|, answers, k);
      TurningTake(|content|, got, k + 1);
      assert got[..k + 1] == got[..k] + [got[k]];
      OneMorePiece(content, got[..k], got[k]);
      ConcatAppend(parts, buf[..len]);
      parts := parts + [buf[..len]];
      size := size + len;
      k := k + 1;
      NextRead(|content|, answers, k);
      len := FileRead(content, buf, size, answers[k]);
    }
    text := Concat(parts);
    assert got[..k] == got;
    WholeFile(content, answers);
  }

  lemma NothingRead(content: seq<byte>)
    ensures Concat([]) == [] && Total([][..0]) == 0 && Turning(|content|, [][..0]) && Pieces(content, [][..0]) == []
  {
  }

  lemma NotLast(n: nat, rs: seq<int>, k: nat)
    requires Ended(n, rs) && k < |rs| && 0 < rs[k]
    ensures k < |rs| - 1 && Turning(n, rs[..|rs| - 1]) && rs[..|rs| - 1][k] == rs[k]
  {
    hide Turning, Total, Answer;
  }

  lemma NextRead(n: nat, rs: seq<int>, k: nat)
    requires Ended(n, rs) && k < |rs|
    ensures 0 <= Total(rs[..|rs| - 1][..k]) && Answer(n, Total(rs[..|rs| - 1][..k]), rs[k])
    ensures 0 < rs[k] <==> k < |rs| - 1
    ensures 0 < rs[k] ==> rs[k] <= BUFFER_SIZE && Offset32(Total(rs[..|rs| - 1][..k])) + rs[k] <= n
  {
    hide Total;
    var front := rs[..|rs| - 1];
    if k == |front| {
      assert front[..k] == front;
    } else {
      TurningTake(n, front, k + 1);
      assert front[..k + 1][..k] == front[..k];
    }
  }

  lemma FirstRead(n: nat, rs: seq<int>)
    requires Ended(n, rs)
    ensures Answer(n, 0, rs[0]) && (0 < rs[0] <==> 0 < |rs| - 1) && Total(rs[..|rs| - 1][..0]) == 0
    ensures 0 < rs[0] ==> rs[0] <= BUFFER_SIZE && Offset32(0) + rs[0] <= n
  {
    NextRead(n, rs, 0);
  }

  lemma WholeFile(content: seq<byte>, rs: seq<int>)
    requires Ended(|content|, rs)
    ensures var got, size := rs[..|rs| - 1], Total(rs[..|rs| - 1]);
            && (size < 0x1_0000_0000 ==> size <= |content| && Pieces(content, got) == content[..size])
            && (rs[|rs| - 1] == 0 ==> size == |content| && Pieces(content, got) == content)
  {
    hide Turning, Total, Pieces;
    var got := rs[..|rs| - 1];
    if rs[|rs| - 1] == 0 {
      TurnsBounded(|content|, got);
    }
    if Total(got) < 0x1_0000_0000 {
      PiecesArePrefix(content, got);
    }
    assert content[..|content|] == content;
  }

  // ----- activeHandles

  datatype Handle = Handle(active: byte, name: seq<byte>)

  predicate Listable(hs: seq<Handle>) {
    forall h :: h in hs ==> 1 <= |h.name| < 0x100
  }

  function Entry(h: Handle): seq<byte>
    requires 1 <= |h.name| < 0x100
  {
    [h.active, |h.name|] + h.name
  }

  /** What `loop.listHandles` writes (src/modules/loop/loop.cc:110-141). */
  function Listing(hs: seq<Handle>): seq<byte>
    requires Listable(hs)
  {
    if hs == [] then [] else Listing(hs[..|hs| - 1]) + Entry(hs[|hs| - 1])
  }

  ghost predicate Lists(all: seq<byte>, hs: seq<Handle>) {
    && Listable(hs) && Listing(hs) <= all
    && forall i :: |Listing(hs)| <= i < |all| ==> all[i] == 0
  }

  lemma {:induction false} ListingPrefix(hs: seq<Handle>, k: nat)
    requires Listable(hs) && k <= |hs|
    ensures Listable(hs[..k]) && Listing(hs[..k]) <= Listing(hs)
    decreases |hs|
  {
    hide Entry;
    if k < |hs| {
      var front := hs[..|hs| - 1];
      ListingPrefix(front, k);
      assert front[..k] == hs[..k];
    } else {
      assert hs[..k] == hs;
    }
  }

  /** What the loop finds at the place where `k` handles end: another one, or zero bytes as far as the buffer goes. */
  lemma EntryAt(all: seq<byte>, hs: seq<Handle>, k: nat)
    requires Lists(all, hs) && k <= |hs|
    ensures Listable(hs[..k])
    ensures var off := |Listing(hs[..k])|;
            && off <= |all|
            && (k < |hs| ==>
                  var h := hs[k];
                  && 0 < |h.name| < 0x100 && off + 2 + |h.name| <= |all|
                  && all[off] == h.active && all[off + 1] == |h.name| && all[off + 2..off + 2 + |h.name|] == h.name
                  && Listable(hs[..k + 1]) && |Listing(hs[..k + 1])| == off + 2 + |h.name|)
            && (k == |hs| && off + 1 < |all| ==> all[off + 1] == 0)
  {
    ListingPrefix(hs, k);
    if k < |hs| {
      ListingPrefix(hs, k + 1);
      assert hs[..k + 1][..k] == hs[..k];
      var before, more := Listing(hs[..k]), Listing(hs[..k + 1]);
      assert more == before + Entry(hs[k]) && more <= all;
      EntryInside(all, before, hs[k]);
    } else {
      assert hs[..k] == hs;
    }
  }

  lemma EntryInside(all: seq<byte>, before: seq<byte>, h: Handle)
    requires 1 <= |h.name| < 0x100 && before + Entry(h) <= all
    ensures var off := |before|;
            && off + 2 + |h.name| <= |all|
            && all[off] == h.active && all[off + 1] == |h.name| && all[off + 2..off + 2 + |h.name|] == h.name
  {
    var more := before + Entry(h);
    assert all[..|more|] == more;
    assert more[|before|..] == Entry(h) && Entry(h)[2..] == h.name;
    assert all[|before| + 2..|more|] == more[|before| + 2..] == h.name;
  }

  lemma ListsFrom(all: seq<byte>, hs: seq<Handle>)
    requires Lists(all, hs)
    ensures Listable(hs[..0]) && |Listing(hs[..0])| == 0
  {
  }

  /** Where the loop stands. Beyond the end of the buffer the length is undefined, which is not 0; the offset then is
      not a number, nor is it ever again. (A name beyond the end does not occur in a listing.) */
  datatype Scan = Scanning(off: nat, handles: seq<Handle>) | Stopped(handles: seq<Handle>) | Lost

  function ScanTurn(all: seq<byte>, s: Scan): Scan {
    match s
    case Scanning(off, handles) =>
      if |all| <= off + 1 then Lost
      else if all[off + 1] == 0 then Stopped(handles)
      else if |all| < off + 2 + all[off + 1] then Lost
      else Scanning(off + 2 + all[off + 1], handles + [Handle(all[off], all[off + 2..off + 2 + all[off + 1]])])
    case Stopped(_) => s
    case Lost => Lost
  }

  /** After `k` turns of the loop. */
  function ScanTurns(all: seq<byte>, k: nat): Scan {
    if k == 0 then Scanning(0, []) else ScanTurn(all, ScanTurns(all, k - 1))
  }

  lemma FindsHandle(all: seq<byte>, off: nat, before: seq<Handle>, h: Handle)
    requires 0 < |h.name| < 0x100 && off + 2 + |h.name| <= |all|
    requires all[off] == h.active && all[off + 1] == |h.name| && all[off + 2..off + 2 + |h.name|] == h.name
    ensures ScanTurn(all, Scanning(off, before)) == Scanning(off + 2 + |h.name|, before + [h])
  {
  }

  lemma {:induction false} ScansListing(all: seq<byte>, hs: seq<Handle>, k: nat)
    requires Lists(all, hs) && k <= |hs|
    ensures Listable(hs[..k]) && ScanTurns(all, k) == Scanning(|Listing(hs[..k])|, hs[..k])
    decreases k
  {
    hide Listing, Listable, Lists, ScanTurn;
    if k == 0 {
      ListsFrom(all, hs);
    } else {
      var before, h := hs[..k - 1], hs[k - 1];
      ScansListing(all, hs, k - 1);
      EntryAt(all, hs, k - 1);
      assert hs[..k] == before + [h];
      FindsHandle(all, |Listing(before)|, before, h);
    }
  }

  lemma {:induction false} LostForGood(all: seq<byte>, hs: seq<Handle>, k: nat)
    requires Lists(all, hs) && |Listing(hs)| + 1 == |all| && |hs| < k
    ensures ScanTurns(all, k) == Lost
    decreases k
  {
    hide Listing, Lists;
    if k == |hs| + 1 {
      ScansListing(all, hs, |hs|);
      assert hs[..|hs|] == hs;
    } else {
      LostForGood(all, hs, k - 1);
    }
  }

  /** The native code needs room for one byte behind the list, the loop for two: it stops exactly if there are two,
      and then with the handles listed. */
  lemma {:induction false} EndsExactlyWithRoom(all: seq<byte>, hs: seq<Handle>)
    requires Lists(all, hs) && |Listing(hs)| + 1 <= |all|
    ensures (exists k :: ScanTurns(all, k).Stopped?) <==> |Listing(hs)| + 2 <= |all|
    ensures |Listing(hs)| + 2 <= |all| ==> ScanTurns(all, |hs| + 1) == Stopped(hs)
  {
    hide Listing, Lists, ScanTurns;
    assert hs[..|hs|] == hs;
    ScansListing(all, hs, |hs|);
    EntryAt(all, hs, |hs|);
    OneTurn(all, |hs|);
    if |Listing(hs)| + 1 == |all| {
      forall k: nat ensures !ScanTurns(all, k).Stopped? {
        if k <= |hs| {
          ScansListing(all, hs, k);
        } else {
          LostForGood(all, hs, k);
        }
      }
    }
  }

  lemma OneTurn(all: seq<byte>, k: nat)
    ensures ScanTurns(all, k + 1) == ScanTurn(all, ScanTurns(all, k))
  {
  }

  /** The zero-filled buffer after `loop.listHandles`, which stores a further zero byte behind the list. */
  method ListHandles(open: seq<Handle>) returns (buf: array<byte>)
    requires Listable(open) && |Listing(open)| < BUFFER_SIZE
    ensures fresh(buf) && buf.Length == BUFFER_SIZE && Lists(buf[..], open)
  {
    hide Listing, Listable;
    buf := new byte[BUFFER_SIZE](i => 0);
    Store(buf, 0, Listing(open));
  }

  /** The handles listed are those of the loop, for every list with room for two more bytes behind it: the loop stops
      at a length of 0. With room for one byte only it does not stop, see `EndsExactlyWithRoom`. */
  method ActiveHandles(open: seq<Handle>) returns (handles: seq<Handle>)
    requires Listable(open) && |Listing(open)| + 2 <= BUFFER_SIZE
    ensures handles == open
  {
    var bytes := ListHandles(open);
    handles := ParseHandles(bytes, open);
  }

  method ParseHandles(bytes: array<byte>, ghost open: seq<Handle>) returns (handles: seq<Handle>)
    requires Lists(bytes[..], open) && |Listing(open)| + 2 <= bytes.Length
    ensures handles == open
  {
    hide Listing, Listable, Lists;
    ghost var all, k := bytes[..], 0;
    var off: nat := 0;
    handles := [];
    ListsFrom(all, open);
    while true
      invariant k <= |open| && handles == open[..k]
      invariant Listable(open[..k]) && off == |Listing(open[..k])| && off + 1 < bytes.Length
      decreases |open| - k
    {
      EntryAt(all, open, k);
      EndsInside(all, open, if k < |open| then k + 1 else k);
      var active := bytes[off];
      var len := bytes[off + 1];
      assert active == all[off] && len == all[off + 1];
      if len == 0 { break; }
      var name := bytes[off + 2..off + 2 + len];
      assert name == all[off + 2..off + 2 + len];
      assert open[..k + 1] == open[..k] + [open[k]];
      handles := handles + [Handle(active, name)];
      off := off + 2 + len;
      k := k + 1;
    }
    assert open[..|open|] == open;
  }

  lemma EndsInside(all: seq<byte>, hs: seq<Handle>, k: nat)
    requires Lists(all, hs) && |Listing(hs)| + 2 <= |all| && k <= |hs|
    ensures Listable(hs[..k]) && |Listing(hs[..k])| + 2 <= |all|
  {
    ListingPrefix(hs, k);
  }
}
