/**
 Finding the length of an Opus file by scanning its Ogg pages (common/audio.go).

 The input is a byte string read through a seekable reader that returns short only
 at the end. Pages follow section 6 of RFC 3533.
 */
module OggScan {

  newtype byte = x: int | 0 <= x < 256

  const HEADER := 27
  const RATE: real := 48000.0

  // ---------------------------------------------------------------------------
  // The scanner
  // ---------------------------------------------------------------------------

  /** The bytes "OggS" start at `pos`. */
  predicate Marker(data: seq<byte>, pos: nat)
    requires pos + 4 <= |data|
  {
    data[pos] == 79 && data[pos + 1] == 103 && data[pos + 2] == 103 && data[pos + 3] == 83
  }

  lemma MarkerIff(data: seq<byte>, pos: nat)
    requires pos + 4 <= |data|
    ensures Marker(data, pos) <==> data[pos..pos + 4] == [79, 103, 103, 83]
  {
    if data[pos..pos + 4] == [79, 103, 103, 83] {
      assert data[pos..pos + 4][1] == 103 && data[pos..pos + 4][2] == 103;
    }
  }

  function Sum(table: seq<byte>): nat {
    if table == [] then 0 else Sum(table[..|table| - 1]) + table[|table| - 1] as nat
  }

  /** The sum of a table is made up of the sums of its parts. */
  lemma {:induction false} SumConcat(a: seq<byte>, b: seq<byte>)
    ensures Sum(a + b) == Sum(a) + Sum(b)
    ensures |b| == 1 ==> Sum(b) == b[0] as nat
  {
    if b == [] {
      assert a + b == a;
    } else {
      var n := |b| - 1;
      assert (a + b)[..|a| + n] == a + b[..n];
      assert b[..n] == [] ==> n == 0;
      SumConcat(a, b[..n]);
    }
  }

  /** Little-endian value. */
  function LittleEndian(bytes: seq<byte>): nat {
    if bytes == [] then 0 else bytes[0] as nat + 256 * LittleEndian(bytes[1..])
  }

  const TWO63: int := 0x8000_0000_0000_0000
  const TWO64: int := 0x1_0000_0000_0000_0000

  /** The conversion from `uint64` to `int64`. */
  function Signed(v: int): int {
    if v >= TWO63 then v - TWO64 else v
  }

  function GranuleAt(data: seq<byte>, pos: nat): int
    requires pos + HEADER <= |data|
  {
    Signed(LittleEndian(data[pos + 6..pos + 14]))
  }

  /** The end of the segment table of a page at `pos`. */
  function TableEnd(data: seq<byte>, pos: nat): (end: nat)
    requires pos + HEADER <= |data|
    ensures end >= pos + HEADER
  {
    pos + HEADER + data[pos + 26] as nat
  }

  /** Every position at which the scanner, started at `pos`, finds a marker. */
  function Visited(data: seq<byte>, pos: nat): seq<nat>
    decreases |data| - pos
  {
    if pos + HEADER > |data| then []
    else if !Marker(data, pos) then Visited(data, pos + 1)
    else
      var end := TableEnd(data, pos);
      if end > |data| then [pos]
      else [pos] + Visited(data, end + Sum(data[pos + HEADER..end]))
  }

  ghost predicate Inside(data: seq<byte>, starts: seq<nat>) {
    forall i :: 0 <= i < |starts| ==> starts[i] + HEADER <= |data|
  }

  lemma {:induction false} VisitedInside(data: seq<byte>, pos: nat)
    ensures Inside(data, Visited(data, pos))
    decreases |data| - pos
  {
    if pos + HEADER <= |data| {
      if !Marker(data, pos) {
        VisitedInside(data, pos + 1);
      } else if TableEnd(data, pos) <= |data| {
        VisitedInside(data, TableEnd(data, pos) + Sum(data[pos + HEADER..TableEnd(data, pos)]));
      }
    }
  }

  function Max(a: int, b: int): int {
    if a > b then a else b
  }

  /** The largest granule position at the given starts, at least 0. */
  function Largest(data: seq<byte>, starts: seq<nat>): (g: int)
    requires Inside(data, starts)
    ensures g >= 0
  {
    if starts == [] then 0 else Max(GranuleAt(data, starts[0]), Largest(data, starts[1..]))
  }

  /** `getOpusDuration`; every round moves the position forward, so it ends on every input. */
  method Duration(data: seq<byte>) returns (seconds: real)
    ensures Inside(data, Visited(data, 0))
    ensures seconds * 48000.0 == Largest(data, Visited(data, 0)) as real
  {
    var total := Scan(data);
    seconds := total as real / RATE;
  }

  /** The loop of the scanner. */
  method Scan(data: seq<byte>) returns (total: int)
    ensures Inside(data, Visited(data, 0))
    ensures total == Largest(data, Visited(data, 0))
  {
    total := 0;
    var pos := 0;
    VisitedInside(data, 0);
    hide Visited, Largest, Sum, GranuleAt, Marker, TableEnd, Inside, NextPage;
    while true
      invariant total >= 0 && pos >= 0 && Inside(data, Visited(data, pos))
      invariant Largest(data, Visited(data, 0)) == Max(total, Largest(data, Visited(data, pos)))
      decreases |data| - pos
    {
      if pos + HEADER > |data| {
        StepEnd(data, pos);
        break;
      }
      var marked, granule, complete, next := ReadPage(data, pos);
      if !marked {
        StepByte(data, pos);
        pos := pos + HEADER - 26;
        continue;
      }
      StepPage(data, pos);
      if granule > total {
        total := granule;
      }
      if !complete {
        return;
      }
      pos := next;
    }
  }

  /** Where the page behind the one at `pos` starts. */
  function NextPage(data: seq<byte>, pos: nat): (next: nat)
    requires pos + HEADER <= |data| && TableEnd(data, pos) <= |data|
    ensures next > pos
  {
    TableEnd(data, pos) + Sum(data[pos + HEADER..TableEnd(data, pos)])
  }

  /** The parts of a page that the scan uses; the page is complete if its segment table is. */
  method ReadPage(data: seq<byte>, pos: nat) returns (marked: bool, granule: int, complete: bool, next: nat)
    requires pos + HEADER <= |data|
    ensures marked == Marker(data, pos) && granule == GranuleAt(data, pos)
    ensures complete <==> TableEnd(data, pos) <= |data|
    ensures complete ==> next == NextPage(data, pos)
  {
    var head := data[pos..pos + HEADER];
    marked := head[0] == 79 && head[1] == 103 && head[2] == 103 && head[3] == 83;
    SliceOfSlice(data, pos, pos + HEADER, 6, 14);
    granule := Signed(LittleEndian(head[6..14]));
    var end := pos + HEADER + head[26] as nat;
    complete, next := end <= |data|, 0;
    if complete {
      var pageSize := TableSum(data[pos + HEADER..end]);
      next := end + pageSize;
    }
  }

  lemma StepEnd(data: seq<byte>, pos: nat)
    requires pos + HEADER > |data|
    ensures Inside(data, Visited(data, pos)) && Largest(data, Visited(data, pos)) == 0
  {
  }

  lemma StepByte(data: seq<byte>, pos: nat)
    requires pos + HEADER <= |data| && !Marker(data, pos)
    ensures Visited(data, pos) == Visited(data, pos + 1)
  {
  }

  lemma StepPage(data: seq<byte>, pos: nat)
    requires pos + HEADER <= |data| && Marker(data, pos)
    ensures Inside(data, Visited(data, pos))
    ensures if TableEnd(data, pos) > |data| then Largest(data, Visited(data, pos)) == Max(GranuleAt(data, pos), 0)
            else
              var next := NextPage(data, pos);
              && Inside(data, Visited(data, next))
              && Largest(data, Visited(data, pos)) == Max(GranuleAt(data, pos), Largest(data, Visited(data, next)))
  {
    VisitedInside(data, pos);
    var end := TableEnd(data, pos);
    if end <= |data| {
      var next := end + Sum(data[pos + HEADER..end]);
      VisitedInside(data, next);
      assert Visited(data, pos)[1..] == Visited(data, next);
    }
    hide GranuleAt, Marker, Sum;
  }

  method TableSum(table: seq<byte>) returns (sum: nat)
    ensures sum == Sum(table)
  {
    sum := 0;
    var i := 0;
    while i < |table|
      invariant 0 <= i <= |table| && sum == Sum(table[..i])
    {
      assert table[..i + 1][..i] == table[..i];
      sum := sum + table[i] as nat;
      i := i + 1;
    }
    assert table[..i] == table;
  }

  // ---------------------------------------------------------------------------
  // Well-formed streams
  // ---------------------------------------------------------------------------

  /** A page; `version` and `kind` are one byte each, `ids` the serial, sequence and checksum fields. */
  datatype Page = Page(version: byte, kind: byte, granule: int, ids: seq<byte>, table: seq<byte>, body: seq<byte>)

  predicate WellFormed(p: Page) {
    && -TWO63 <= p.granule < TWO63
    && |p.ids| == 12 && |p.table| < 256 && |p.body| == Sum(p.table)
  }

  function Bytes(v: nat, n: nat): (r: seq<byte>)
    ensures |r| == n
  {
    if n == 0 then [] else [(v % 256) as byte] + Bytes(v / 256, n - 1)
  }

  function Unsigned(g: int): nat
    requires -TWO63 <= g < TWO63
  {
    if g < 0 then g + TWO64 else g
  }

  function Encode(p: Page): (r: seq<byte>)
    requires WellFormed(p)
    ensures |r| == HEADER + |p.table| + |p.body|
  {
    [79, 103, 103, 83, p.version, p.kind] + Bytes(Unsigned(p.granule), 8) + p.ids + [|p.table| as byte] + p.table
        + p.body
  }

  /** Bytes to be skipped, then a page. */
  datatype Chunk = Chunk(junk: seq<byte>, page: Page)

  ghost predicate MarkerFree(junk: seq<byte>) {
    forall i :: 0 <= i && i + 4 <= |junk| ==> !Marker(junk, i)
  }

  ghost predicate Proper(chunks: seq<Chunk>) {
    forall i :: 0 <= i < |chunks| ==> WellFormed(chunks[i].page) && MarkerFree(chunks[i].junk)
  }

  function Stream(chunks: seq<Chunk>, tail: seq<byte>): seq<byte>
    requires Proper(chunks)
  {
    if chunks == [] then tail else chunks[0].junk + Encode(chunks[0].page) + Stream(chunks[1..], tail)
  }

  /** Where the pages start, if the stream starts at `base`. */
  function Starts(chunks: seq<Chunk>, base: nat): seq<nat>
    requires Proper(chunks)
  {
    if chunks == [] then []
    else
      var start := base + |chunks[0].junk|;
      [start] + Starts(chunks[1..], start + |Encode(chunks[0].page)|)
  }

  function LargestGranule(chunks: seq<Chunk>): (g: int)
    ensures g >= 0
  {
    if chunks == [] then 0 else Max(chunks[0].page.granule, LargestGranule(chunks[1..]))
  }

  // ---------------------------------------------------------------------------
  // Reading a page back
  // ---------------------------------------------------------------------------

  function Pow256(n: nat): nat {
    if n == 0 then 1 else 256 * Pow256(n - 1)
  }

  lemma {:induction false} LittleEndianBytes(v: nat, n: nat)
    requires v < Pow256(n)
    ensures LittleEndian(Bytes(v, n)) == v
  {
    if n > 0 {
      LittleEndianBytes(v / 256, n - 1);
      assert Bytes(v, n)[1..] == Bytes(v / 256, n - 1);
    }
  }

  lemma EightBytes()
    ensures Pow256(8) == TWO64
  {
    assert Pow256(4) == 0x1_0000_0000;
    assert Pow256(6) == 65536 * Pow256(4);
    assert Pow256(8) == 65536 * Pow256(6);
  }

  lemma GranuleRoundTrip(g: int)
    requires -TWO63 <= g < TWO63
    ensures Signed(LittleEndian(Bytes(Unsigned(g), 8))) == g
  {
    EightBytes();
    LittleEndianBytes(Unsigned(g), 8);
  }

  /** The bytes `e` are in `data` from `pos` on. */
  ghost predicate Holds(data: seq<byte>, pos: nat, e: seq<byte>) {
    pos + |e| <= |data| && data[pos..pos + |e|] == e
  }

  lemma SliceOfSlice<T>(s: seq<T>, i: nat, j: nat, a: nat, b: nat)
    requires i <= j <= |s| && a <= b <= j - i
    ensures s[i..j][a..b] == s[i + a..i + b]
  {
    var part := s[i..j];
    forall k | 0 <= k < b - a
      ensures part[a..b][k] == s[i + a..i + b][k]
    {
      assert part[a..b][k] == part[a + k];
      assert part[a + k] == s[i + (a + k)];
    }
  }

  lemma HoldsPart(data: seq<byte>, pos: nat, e: seq<byte>, a: nat, b: nat)
    requires Holds(data, pos, e) && a <= b <= |e|
    ensures Holds(data, pos + a, e[a..b])
  {
    SliceOfSlice(data, pos, pos + |e|, a, b);
  }

  lemma EncodeParts(p: Page)
    requires WellFormed(p)
    ensures var e := Encode(p);
            && e[0..4] == [79, 103, 103, 83] && e[6..14] == Bytes(Unsigned(p.granule), 8) && e[26] == |p.table| as byte
            && e[HEADER..HEADER + |p.table|] == p.table
  {
  }

  lemma MarkerRead(data: seq<byte>, pos: nat, p: Page)
    requires WellFormed(p) && Holds(data, pos, Encode(p))
    ensures pos + 4 <= |data| && Marker(data, pos)
  {
    EncodeParts(p);
    HoldsPart(data, pos, Encode(p), 0, 4);
    hide Encode, WellFormed;
    var mark := data[pos..pos + 4];
    assert mark[0] == 79 && mark[1] == 103 && mark[2] == 103 && mark[3] == 83;
  }

  lemma GranuleRead(data: seq<byte>, pos: nat, p: Page)
    requires WellFormed(p) && Holds(data, pos, Encode(p))
    ensures pos + HEADER <= |data| && GranuleAt(data, pos) == p.granule
  {
    EncodeParts(p);
    HoldsPart(data, pos, Encode(p), 6, 14);
    GranuleRoundTrip(p.granule);
    hide Encode, LittleEndian, Bytes, Unsigned, Signed;
  }

  lemma TableRead(data: seq<byte>, pos: nat, p: Page)
    requires WellFormed(p) && Holds(data, pos, Encode(p))
    ensures pos + HEADER <= |data| && TableEnd(data, pos) == pos + HEADER + |p.table| <= |data|
    ensures TableEnd(data, pos) + Sum(data[pos + HEADER..TableEnd(data, pos)]) == pos + |Encode(p)|
  {
    var e := Encode(p);
    EncodeParts(p);
    HoldsPart(data, pos, e, HEADER, HEADER + |p.table|);
    HoldsPart(data, pos, e, 26, 27);
    hide Encode, Sum;
    assert data[pos + 26..pos + 27][0] == e[26];
  }

  // ---------------------------------------------------------------------------
  // Skipping
  // ---------------------------------------------------------------------------

  lemma {:induction false} SkipTo(data: seq<byte>, a: nat, b: nat)
    requires a <= b && b + HEADER <= |data| && forall i :: a <= i < b ==> !Marker(data, i)
    ensures Visited(data, a) == Visited(data, b)
    decreases b - a
  {
    if a < b {
      SkipTo(data, a + 1, b);
    }
  }

  lemma {:induction false} SkipRest(data: seq<byte>, a: nat)
    requires forall i :: a <= i && i + 4 <= |data| ==> !Marker(data, i)
    ensures Visited(data, a) == []
    decreases |data| - a
  {
    if a + HEADER <= |data| {
      SkipRest(data, a + 1);
    }
  }

  /**
   No marker begins in the skipped bytes, not even one that reaches into the page: no end of "OggS"
   is a beginning of it.
   */
  lemma NoStraddle(data: seq<byte>, pos: nat, junk: seq<byte>, i: nat)
    requires MarkerFree(junk) && Holds(data, pos, junk) && pos <= i < pos + |junk|
    requires pos + |junk| + 4 <= |data| && Marker(data, pos + |junk|)
    ensures !Marker(data, i)
  {
    var k := i - pos;
    if k + 4 <= |junk| {
      HoldsPart(data, pos, junk, k, k + 4);
      var part := data[i..i + 4];
      assert part == junk[k..k + 4];
      assert part[0] == junk[k] && part[1] == junk[k + 1] && part[2] == junk[k + 2] && part[3] == junk[k + 3];
      assert !Marker(junk, k);
    }
  }

  /** One page is visited at its start and the scan goes on right behind it. */
  lemma PageVisited(data: seq<byte>, pos: nat, c: Chunk)
    requires WellFormed(c.page) && MarkerFree(c.junk)
    requires Holds(data, pos, c.junk) && Holds(data, pos + |c.junk|, Encode(c.page))
    ensures var start := pos + |c.junk|;
            Visited(data, pos) == [start] + Visited(data, start + |Encode(c.page)|)
  {
    var start := pos + |c.junk|;
    MarkerRead(data, start, c.page);
    TableRead(data, start, c.page);
    forall i | pos <= i < start
      ensures !Marker(data, i)
    {
      NoStraddle(data, pos, c.junk, i);
    }
    SkipTo(data, pos, start);
    hide Encode, Marker, GranuleAt, Sum, Holds;
  }

  // ---------------------------------------------------------------------------
  // The scan of a well-formed stream
  // ---------------------------------------------------------------------------

  lemma TailSkipped(data: seq<byte>, pos: nat, tail: seq<byte>)
    requires pos <= |data| && data[pos..] == tail && MarkerFree(tail)
    ensures Visited(data, pos) == []
  {
    forall i | pos <= i && i + 4 <= |data|
      ensures !Marker(data, i)
    {
      assert !Marker(tail, i - pos);
      assert forall j :: 0 <= j < |tail| ==> data[pos + j] == tail[j];
    }
    SkipRest(data, pos);
  }

  lemma PartsOf(a: seq<byte>, b: seq<byte>, c: seq<byte>)
    ensures var s := a + b + c;
            s[0..|a|] == a && s[|a|..|a| + |b|] == b && s[|a| + |b|..|s|] == c
  {
  }

  /** A stream that continues at `pos` holds its first chunk there and the rest behind it. */
  lemma StreamSplits(data: seq<byte>, pos: nat, chunks: seq<Chunk>, tail: seq<byte>)
    requires Proper(chunks) && chunks != [] && pos <= |data| && data[pos..] == Stream(chunks, tail)
    ensures var c := chunks[0];
            var next := pos + |c.junk| + |Encode(c.page)|;
            && Holds(data, pos, c.junk) && Holds(data, pos + |c.junk|, Encode(c.page))
            && next <= |data| && data[next..] == Stream(chunks[1..], tail)
  {
    var c, rest := chunks[0], Stream(chunks[1..], tail);
    var junk, e := c.junk, Encode(c.page);
    assert data[pos..] == junk + e + rest;
    hide Encode, Stream, WellFormed, MarkerFree;
    var n, m := |junk|, |junk| + |e|;
    SliceOfSlice(data, pos, |data|, 0, n);
    SliceOfSlice(data, pos, |data|, n, m);
    SliceOfSlice(data, pos, |data|, m, |data| - pos);
    PartsOf(junk, e, rest);
  }

  /** The scan visits exactly the page starts. */
  lemma {:induction false} VisitsPageStarts(data: seq<byte>, pos: nat, chunks: seq<Chunk>, tail: seq<byte>)
    requires Proper(chunks) && MarkerFree(tail) && pos <= |data| && data[pos..] == Stream(chunks, tail)
    ensures Visited(data, pos) == Starts(chunks, pos)
    decreases |chunks|
  {
    if chunks == [] {
      TailSkipped(data, pos, tail);
    } else {
      var c := chunks[0];
      StreamSplits(data, pos, chunks, tail);
      PageVisited(data, pos, c);
      hide Encode, Visited, Stream, WellFormed, MarkerFree, Holds;
      VisitsPageStarts(data, pos + |c.junk| + |Encode(c.page)|, chunks[1..], tail);
    }
  }

  lemma {:induction false} LargestAtStarts(data: seq<byte>, pos: nat, chunks: seq<Chunk>, tail: seq<byte>)
    requires Proper(chunks) && pos <= |data| && data[pos..] == Stream(chunks, tail)
    ensures Inside(data, Starts(chunks, pos)) && Largest(data, Starts(chunks, pos)) == LargestGranule(chunks)
    decreases |chunks|
  {
    if chunks != [] {
      var c := chunks[0];
      StreamSplits(data, pos, chunks, tail);
      GranuleRead(data, pos + |c.junk|, c.page);
      hide Encode, GranuleAt, Marker, Stream, WellFormed, MarkerFree, Holds;
      var next := pos + |c.junk| + |Encode(c.page)|;
      LargestAtStarts(data, next, chunks[1..], tail);
      assert Starts(chunks, pos) == [pos + |c.junk|] + Starts(chunks[1..], next);
      assert Starts(chunks, pos)[1..] == Starts(chunks[1..], next);
    }
  }

  /**
   On every stream of pages, with marker-free bytes around them, the duration is the largest granule
   position that is not negative over 48000.
   */
  lemma StreamDuration(chunks: seq<Chunk>, tail: seq<byte>)
    requires Proper(chunks) && MarkerFree(tail)
    ensures var data := Stream(chunks, tail);
            && Visited(data, 0) == Starts(chunks, 0)
            && Inside(data, Visited(data, 0)) && Largest(data, Visited(data, 0)) == LargestGranule(chunks)
  {
    var data := Stream(chunks, tail);
    assert data[0..] == data;
    VisitsPageStarts(data, 0, chunks, tail);
    LargestAtStarts(data, 0, chunks, tail);
  }

  /** The largest granule is one of the pages' or 0, and no page exceeds it; pages with -1 do not matter. */
  lemma {:induction false} LargestGranuleIs(chunks: seq<Chunk>)
    ensures LargestGranule(chunks) == 0
         || exists i :: 0 <= i < |chunks| && chunks[i].page.granule == LargestGranule(chunks)
    ensures forall i :: 0 <= i < |chunks| ==> chunks[i].page.granule <= LargestGranule(chunks)
  {
    if chunks != [] {
      LargestGranuleIs(chunks[1..]);
      if LargestGranule(chunks) != chunks[0].page.granule && LargestGranule(chunks) != 0 {
        var i :| 0 <= i < |chunks[1..]| && chunks[1..][i].page.granule == LargestGranule(chunks[1..]);
        assert chunks[i + 1].page.granule == LargestGranule(chunks);
      }
    }
  }
}
