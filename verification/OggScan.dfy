/**
 The duration of an Opus file: a scan over the pages of its Ogg container (section 6 of RFC 3533) for the largest
 granule position, which counts samples at 48 kHz (section 4 of RFC 7845).
 */
module OggScan {
  import opened Prelude

  const CAPTURE := Ascii("OggS")
  const HEADER_SIZE := 27
  const SAMPLE_RATE := 48000.0

  // ----- Little-endian integers

  function LittleEndian(b: Bytes): nat {
    if b == [] then 0 else b[0] + 256 * LittleEndian(b[1..])
  }

  function EncodeLE(n: nat, width: nat): (b: Bytes)
    ensures |b| == width
  {
    if width == 0 then [] else [n % 256] + EncodeLE(n / 256, width - 1)
  }

  function Pow256(k: nat): nat {
    if k == 0 then 1 else 256 * Pow256(k - 1)
  }

  lemma {:induction false} LittleEndianRoundTrip(n: nat, width: nat)
    requires n < Pow256(width)
    ensures LittleEndian(EncodeLE(n, width)) == n
  {
    if width > 0 {
      LittleEndianRoundTrip(n / 256, width - 1);
    }
  }

  const TWO_63 := 0x8000_0000_0000_0000
  const TWO_64 := 0x1_0000_0000_0000_0000

  type int64 = x: int | -TWO_63 <= x < TWO_63

  /** `int64(x)` of an unsigned 64-bit number. */
  function Signed(x: nat): int {
    if x >= TWO_63 then x - TWO_64 else x
  }

  function Unsigned(x: int64): nat {
    if x < 0 then x + TWO_64 else x
  }

  lemma Pow256Of8()
    ensures Pow256(8) == TWO_64
  {
    assert Pow256(4) == 0x1_0000_0000;
    assert Pow256(8) == 256 * (256 * (256 * (256 * Pow256(4))));
  }

  lemma SignedRoundTrip(x: int64)
    ensures Signed(LittleEndian(EncodeLE(Unsigned(x), 8))) == x
  {
    Pow256Of8();
    LittleEndianRoundTrip(Unsigned(x), 8);
  }

  /** The lowest byte comes first, and the highest bit of the last byte is the sign. */
  lemma LittleEndianVectors()
    ensures LittleEndian([0x80, 0xBB, 0, 0, 0, 0, 0, 0]) == 48000 && Signed(48000) == 48000
    ensures Signed(LittleEndian([255, 255, 255, 255, 255, 255, 255, 255])) == -1
    ensures Signed(LittleEndian([0, 0, 0, 0, 0, 0, 0, 128])) == -0x8000_0000_0000_0000
  {
    Eight(0x80, 0xBB, 0, 0, 0, 0, 0, 0);
    Eight(255, 255, 255, 255, 255, 255, 255, 255);
    Eight(0, 0, 0, 0, 0, 0, 0, 128);
  }

  lemma Eight(a: byte, b: byte, c: byte, d: byte, e: byte, f: byte, g: byte, h: byte)
    ensures LittleEndian([a, b, c, d, e, f, g, h])
         == a + 0x100 * b + 0x1_0000 * c + 0x100_0000 * d + 0x1_0000_0000 * e + 0x100_0000_0000 * f
            + 0x1_0000_0000_0000 * g + 0x100_0000_0000_0000 * h
  {
    LowFirst(h, []);
    LowFirst(g, [h]);
    LowFirst(f, [g, h]);
    LowFirst(e, [f, g, h]);
    LowFirst(d, [e, f, g, h]);
    LowFirst(c, [d, e, f, g, h]);
    LowFirst(b, [c, d, e, f, g, h]);
    LowFirst(a, [b, c, d, e, f, g, h]);
    assert [a] + [b, c, d, e, f, g, h] == [a, b, c, d, e, f, g, h] && [b] + [c, d, e, f, g, h] == [b, c, d, e, f, g, h];
    assert [c] + [d, e, f, g, h] == [c, d, e, f, g, h] && [d] + [e, f, g, h] == [d, e, f, g, h];
    assert [e] + [f, g, h] == [e, f, g, h] && [f] + [g, h] == [f, g, h] && [g] + [h] == [g, h];
    hide LittleEndian;
  }

  lemma LowFirst(x: byte, rest: Bytes)
    ensures LittleEndian([x] + rest) == x + 256 * LittleEndian(rest)
  {
    assert ([x] + rest)[1..] == rest;
  }

  // ----- The scan

  function Sum(b: Bytes): nat {
    if b == [] then 0 else Sum(b[..|b| - 1]) + b[|b| - 1]
  }

  /** The payload length of a page is the sum of its lacing values. */
  lemma {:induction false} SumMeans(b: Bytes, x: byte)
    ensures Sum([]) == 0 && Sum(b + [x]) == Sum(b) + x
    ensures Sum([255, 255, 10]) == 520
  {
    assert (b + [x])[..|b|] == b;
    var v: Bytes := [255, 255, 10];
    assert v[..2] == [255, 255] && v[..2][..1] == [255] && v[..2][..1][..0] == [];
  }

  /** A header the scan accepts: where it starts and the granule position it states. */
  datatype Hit = Hit(start: nat, granule: int)

  predicate AtCapture(data: Bytes, pos: nat)
    requires pos + HEADER_SIZE <= |data|
  {
    data[pos..pos + 4] == CAPTURE
  }

  function HitAt(data: Bytes, pos: nat): Hit
    requires pos + HEADER_SIZE <= |data|
  {
    Hit(pos, Signed(LittleEndian(data[pos + 6..pos + 14])))
  }

  /** All headers accepted from a position on. */
  function Hits(data: Bytes, pos: nat): seq<Hit>
    decreases |data| - pos
  {
    if pos + HEADER_SIZE > |data| then []
    else if !AtCapture(data, pos) then Hits(data, pos + 1)
    else
      var table := pos + HEADER_SIZE;
      var segments := data[pos + 26];
      if table + segments > |data| then [HitAt(data, pos)]
      else
        var next := table + segments + Sum(data[table..table + segments]);
        [HitAt(data, pos)] + Hits(data, next)
  }

  /** A header whose segment table is cut off still counts, and ends the scan. */
  lemma TruncatedPageCounts(data: Bytes, pos: nat)
    requires pos + 27 <= |data| < pos + 27 + data[pos + 26] && data[pos..pos + 4] == Ascii("OggS")
    ensures Hits(data, pos) == [Hit(pos, Signed(LittleEndian(data[pos + 6..pos + 14])))]
  {
  }

  function Max(a: int, b: int): int {
    if a > b then a else b
  }

  /** The largest granule position, zero if none is positive. */
  function MaxGranule(hits: seq<Hit>): int {
    if hits == [] then 0 else Max(hits[0].granule, MaxGranule(hits[1..]))
  }

  lemma {:induction false} MaxGranuleIsMax(hits: seq<Hit>)
    ensures MaxGranule(hits) >= 0 && forall i :: 0 <= i < |hits| ==> hits[i].granule <= MaxGranule(hits)
    ensures MaxGranule(hits) == 0 || exists i :: 0 <= i < |hits| && hits[i].granule == MaxGranule(hits)
  {
    if hits != [] {
      MaxGranuleIsMax(hits[1..]);
    }
  }

  lemma SliceOfSlice(data: Bytes, at: nat, n: nat, i: nat, j: nat)
    requires at + n <= |data| && i <= j <= n
    ensures data[at..at + n][i..j] == data[at + i..at + j]
  {
    var x, y := data[at..at + n][i..j], data[at + i..at + j];
    assert |x| == |y|;
    assert forall k :: 0 <= k < |x| ==> x[k] == y[k];
  }

  /** The answer for the rest of the file. */
  function Best(data: Bytes, pos: nat): int {
    MaxGranule(Hits(data, pos))
  }

  /** One round of the scan, by what it finds. */
  lemma BestUnfold(data: Bytes, pos: nat)
    ensures Best(data, pos) >= 0
    ensures pos + HEADER_SIZE > |data| ==> Best(data, pos) == 0
    ensures pos + HEADER_SIZE <= |data| && !AtCapture(data, pos) ==> Best(data, pos) == Best(data, pos + 1)
    ensures pos + HEADER_SIZE <= |data| && AtCapture(data, pos) ==>
              var table, segments := pos + HEADER_SIZE, data[pos + 26];
              Best(data, pos) == Max(HitAt(data, pos).granule,
                if table + segments > |data| then 0 else Best(data, table + segments + Sum(data[table..table + segments])))
  {
    MaxGranuleIsMax(Hits(data, pos));
    if pos + HEADER_SIZE <= |data| && AtCapture(data, pos) {
      var hits := Hits(data, pos);
      var table, segments := pos + HEADER_SIZE, data[pos + 26];
      if table + segments <= |data| {
        assert hits[1..] == Hits(data, table + segments + Sum(data[table..table + segments]));
      }
    }
  }

  lemma BestOfAll(data: Bytes)
    ensures 0 <= Best(data, 0) == MaxGranule(Hits(data, 0))
  {
    BestUnfold(data, 0);
  }

  /** `getOpusDuration` over a seekable file: it ends on every byte string, because each round moves the position forward. */
  method GetOpusDuration(data: Bytes) returns (duration: real)
    ensures duration == MaxGranule(Hits(data, 0)) as real / 48000.0
  {
    hide Best, Hits, LittleEndian, Signed, Sum, MaxGranule, CAPTURE;
    var pos, totalGranulePos := 0, 0;
    BestOfAll(data);
    while true
      invariant pos >= 0 && totalGranulePos >= 0
      invariant Best(data, 0) == Max(totalGranulePos, Best(data, pos))
      decreases if pos < |data| then |data| - pos else 0
    {
      BestUnfold(data, pos);
      // Read fills the buffer unless the file ends first.
      if pos + HEADER_SIZE > |data| {
        break;
      }
      var buf := data[pos..pos + HEADER_SIZE];
      SliceOfSlice(data, pos, HEADER_SIZE, 0, 4);
      SliceOfSlice(data, pos, HEADER_SIZE, 6, 14);
      pos := pos + HEADER_SIZE;
      if buf[0..4] != CAPTURE {
        pos := pos - 26;
        continue;
      }
      var granulePos := Signed(LittleEndian(buf[6..14]));
      if granulePos > totalGranulePos {
        totalGranulePos := granulePos;
      }
      var numSegments := buf[26];
      if pos + numSegments > |data| {
        break;
      }
      var segmentTable := data[pos..pos + numSegments];
      pos := pos + numSegments;
      var pageSize := AddSegments(segmentTable);
      pos := pos + pageSize;
    }
    duration := totalGranulePos as real / SAMPLE_RATE;
  }

  /** The inner loop: the page's payload size. */
  method AddSegments(segmentTable: Bytes) returns (pageSize: nat)
    ensures pageSize == Sum(segmentTable)
  {
    pageSize := 0;
    for i := 0 to |segmentTable|
      invariant pageSize == Sum(segmentTable[..i])
    {
      assert segmentTable[..i + 1][..i] == segmentTable[..i];
      pageSize := pageSize + segmentTable[i];
    }
    assert segmentTable[..|segmentTable|] == segmentTable;
  }

  // ----- Well-formed pages

  /** A page: `fixed` is the version and type byte, `rest` the serial number, sequence number and checksum. */
  datatype Page = Page(fixed: Bytes, granule: int64, rest: Bytes, segments: Bytes, payload: Bytes)

  ghost predicate WellFormed(p: Page) {
    |p.fixed| == 2 && |p.rest| == 12 && |p.segments| <= 255 && |p.payload| == Sum(p.segments)
  }

  function Header(p: Page): Bytes
    requires |p.segments| <= 255
  {
    CAPTURE + p.fixed + EncodeLE(Unsigned(p.granule), 8) + p.rest + [|p.segments|]
  }

  function EncodePage(p: Page): Bytes
    requires |p.segments| <= 255
  {
    Header(p) + p.segments + p.payload
  }

  ghost predicate AllWellFormed(pages: seq<Page>) {
    forall i :: 0 <= i < |pages| ==> WellFormed(pages[i])
  }

  function Encode(pages: seq<Page>): Bytes
    requires AllWellFormed(pages)
  {
    if pages == [] then [] else EncodePage(pages[0]) + Encode(pages[1..])
  }

  /** Where the pages start, and what they state, when the first one starts at `at`. */
  function PageHits(pages: seq<Page>, at: nat): seq<Hit>
    requires AllWellFormed(pages)
  {
    if pages == [] then [] else [Hit(at, pages[0].granule)] + PageHits(pages[1..], at + |EncodePage(pages[0])|)
  }

  /** The fields of a page can be read off at their offsets, wherever the page lies. */
  lemma FieldsOfPage(p: Page, data: Bytes, at: nat)
    requires WellFormed(p) && at + |EncodePage(p)| <= |data| && data[at..at + |EncodePage(p)|] == EncodePage(p)
    ensures |EncodePage(p)| == HEADER_SIZE + |p.segments| + |p.payload|
    ensures data[at..at + 4] == CAPTURE
    ensures data[at + 6..at + 14] == EncodeLE(Unsigned(p.granule), 8)
    ensures data[at + 26] == |p.segments|
    ensures data[at + 27..at + 27 + |p.segments|] == p.segments
  {
    var e := EncodePage(p);
    assert e[0..4] == CAPTURE && e[6..14] == EncodeLE(Unsigned(p.granule), 8) && e[26] == |p.segments|;
    assert e[27..27 + |p.segments|] == p.segments;
    SliceOfSlice(data, at, |e|, 0, 4);
    SliceOfSlice(data, at, |e|, 6, 14);
    SliceOfSlice(data, at, |e|, 27, 27 + |p.segments|);
    assert data[at + 26] == data[at..at + |e|][26];
  }

  lemma StretchSplits(data: Bytes, at: nat, first: Bytes, rest: Bytes)
    requires at + |first + rest| <= |data| && data[at..at + |first + rest|] == first + rest
    ensures data[at..at + |first|] == first && data[at + |first|..at + |first| + |rest|] == rest
  {
    var e := first + rest;
    assert e[..|first|] == first && e[|first|..] == rest;
    assert data[at..at + |first|] == e[..|first|];
    assert data[at + |first|..at + |e|] == e[|first|..];
  }

  /** From a page start the scan accepts the page and continues at its end, whatever the payload contains. */
  lemma ScanStepsOverPage(p: Page, data: Bytes, at: nat)
    requires WellFormed(p) && at + |EncodePage(p)| <= |data| && data[at..at + |EncodePage(p)|] == EncodePage(p)
    ensures Hits(data, at) == [Hit(at, p.granule)] + Hits(data, at + |EncodePage(p)|)
  {
    FieldsOfPage(p, data, at);
    SignedRoundTrip(p.granule);
  }

  lemma ScanEnds(data: Bytes, at: nat)
    requires at + HEADER_SIZE > |data|
    ensures Hits(data, at) == []
  {
  }

  lemma {:induction false} ScanVisitsPages(pages: seq<Page>, data: Bytes, at: nat)
    requires AllWellFormed(pages) && at + |Encode(pages)| <= |data| < at + |Encode(pages)| + HEADER_SIZE
    requires data[at..at + |Encode(pages)|] == Encode(pages)
    ensures Hits(data, at) == PageHits(pages, at)
    decreases |pages|
  {
    hide EncodePage, Hits;
    if pages == [] {
      ScanEnds(data, at);
    } else {
      var n, rest := |EncodePage(pages[0])|, Encode(pages[1..]);
      StretchSplits(data, at, EncodePage(pages[0]), rest);
      ScanStepsOverPage(pages[0], data, at);
      ScanVisitsPages(pages[1..], data, at + n);
    }
  }

  /** Bytes before the first page are skipped one by one, as long as the capture pattern does not occur among them. */
  lemma {:induction false} ScanSkipsJunk(data: Bytes, pos: nat, start: nat)
    requires pos <= start <= |data|
    requires forall i :: pos <= i < start && i + HEADER_SIZE <= |data| ==> !AtCapture(data, i)
    ensures Hits(data, pos) == Hits(data, start)
    decreases start - pos
  {
    if pos < start {
      ScanSkipsJunk(data, pos + 1, start);
    }
  }

  /**
   On any concatenation of well-formed pages, with junk before it that does not hold the capture pattern and less than
   a header after it, the scan visits exactly the page starts, even when payloads contain the pattern.
   */
  lemma ScanFindsExactlyThePages(junk: Bytes, pages: seq<Page>, tail: Bytes)
    requires AllWellFormed(pages) && |tail| < HEADER_SIZE
    requires var data := junk + Encode(pages) + tail;
             forall i :: 0 <= i < |junk| && i + HEADER_SIZE <= |data| ==> !AtCapture(data, i)
    ensures Hits(junk + Encode(pages) + tail, 0) == PageHits(pages, |junk|)
  {
    var data := junk + Encode(pages) + tail;
    ScanSkipsJunk(data, 0, |junk|);
    assert data[|junk|..|junk| + |Encode(pages)|] == Encode(pages);
    ScanVisitsPages(pages, data, |junk|);
  }

  lemma {:induction false} PageHitsFacts(pages: seq<Page>, at: nat)
    requires AllWellFormed(pages)
    ensures |PageHits(pages, at)| == |pages|
    ensures forall i :: 0 <= i < |pages| ==> PageHits(pages, at)[i].granule == pages[i].granule
    decreases |pages|
  {
    if pages != [] {
      PageHitsFacts(pages[1..], at + |EncodePage(pages[0])|);
    }
  }

  /** So the duration is the largest granule position that any page states, or zero if all are negative. */
  lemma DurationIsLargestGranule(junk: Bytes, pages: seq<Page>, tail: Bytes)
    requires AllWellFormed(pages) && |tail| < HEADER_SIZE
    requires var data := junk + Encode(pages) + tail;
             forall i :: 0 <= i < |junk| && i + HEADER_SIZE <= |data| ==> !AtCapture(data, i)
    ensures var m := MaxGranule(Hits(junk + Encode(pages) + tail, 0));
            && m >= 0 && (forall i :: 0 <= i < |pages| ==> pages[i].granule <= m)
            && (m == 0 || exists i :: 0 <= i < |pages| && pages[i].granule == m)
  {
    ScanFindsExactlyThePages(junk, pages, tail);
    var hits := PageHits(pages, |junk|);
    PageHitsFacts(pages, |junk|);
    MaxGranuleIsMax(hits);
    forall i | 0 <= i < |pages| ensures pages[i].granule <= MaxGranule(hits) {
      assert hits[i].granule == pages[i].granule;
    }
  }
}
