/** Finding the orientation of a JPEG stream: a marker scanner around a TIFF directory reader. */
module Exif {
  import opened Bytes

  const APP1: Byte := 0xE1
  const EOI: Byte := 0xD9
  const SOS: Byte := 0xDA
  const ORIENTATION_TAG := 0x0112

  datatype Order = Little | Big

  function U16(o: Order, a: Byte, b: Byte): int {
    if o.Little? then a + 256 * b else 256 * a + b
  }

  function U32(o: Order, a: Byte, b: Byte, c: Byte, d: Byte): int {
    if o.Little? then U16(o, a, b) + 65536 * U16(o, c, d) else 65536 * U16(o, a, b) + U16(o, c, d)
  }

  // ---------------------------------------------------------------- what is read

  /** The value of the first orientation entry among the first n whole 12-byte entries of s. */
  function FirstOrientation(o: Order, s: seq<Byte>, n: nat): int {
    if n == 0 || |s| < 12 then 1
    else if U16(o, s[0], s[1]) == ORIENTATION_TAG then U16(o, s[8], s[9])
    else FirstOrientation(o, s[12..], n - 1)
  }

  function OrderOf(tiff: seq<Byte>): seq<Order>
    requires |tiff| >= 8
  {
    if tiff[0] == 0x49 && tiff[1] == 0x49 then [Little] else if tiff[0] == 0x4D && tiff[1] == 0x4D then [Big] else []
  }

  function TiffOrientation(tiff: seq<Byte>): int {
    if |tiff| < 8 || OrderOf(tiff) == [] then 1 else
      var o := OrderOf(tiff)[0];
      var at := U32(o, tiff[4], tiff[5], tiff[6], tiff[7]);
      if U16(o, tiff[2], tiff[3]) != 42 || at < 8 || at + 2 > |tiff| then 1
      else FirstOrientation(o, tiff[at + 2..], U16(o, tiff[at], tiff[at + 1]))
  }

  /** What follows the fill bytes at the front of s. */
  function AfterFill(s: seq<Byte>): (r: seq<Byte>)
    ensures |r| <= |s| && (r != [] ==> r[0] != 0xFF)
  {
    if s != [] && s[0] == 0xFF then AfterFill(s[1..]) else s
  }

  const EXIF_HEADER: seq<Byte> := [0x45, 0x78, 0x69, 0x66, 0, 0]

  predicate IsExif(payload: seq<Byte>) { |payload| > 6 && payload[..6] == EXIF_HEADER }

  /** The orientation found from the marker at the front of s on. */
  function ScanOrientation(s: seq<Byte>): int
    decreases |s|, 1
  {
    if |s| < 2 || s[0] != 0xFF then 1 else ScanSegment(AfterFill(s[1..]))
  }

  /** The orientation found from the marker code at the front of t on. */
  function ScanSegment(t: seq<Byte>): int
    decreases |t|, 0
  {
    if |t| < 3 || t[0] == EOI || t[0] == SOS then 1 else
      var length := U16(Big, t[1], t[2]) - 2;
      if length < 0 || |t| < 3 + length then 1
      else if t[0] == APP1 && IsExif(t[3..3 + length]) then TiffOrientation(t[9..3 + length])
      else ScanOrientation(t[3 + length..])
  }

  function StreamOrientation(s: seq<Byte>): int {
    if |s| < 2 || s[0] != 0xFF || s[1] != 0xD8 then 1 else ScanOrientation(s[2..])
  }

  // ---------------------------------------------------------------- the readers

  /** A stream that is consumed front to back. */
  class Reader {
    const data: seq<Byte>
    var pos: nat

    constructor (data: seq<Byte>)
      ensures this.data == data && Valid() && Rest() == data
    {
      this.data, pos := data, 0;
    }

    ghost predicate Valid() reads this { pos <= |data| }

    ghost function Rest(): seq<Byte>
      requires Valid()
      reads this
    {
      data[pos..]
    }

    /** Takes n bytes; on a short stream takes what is left and reports failure. */
    method ReadFull(n: nat) returns (ok: bool, bytes: seq<Byte>)
      requires Valid()
      modifies this
      ensures Valid() && ok == (n <= |old(Rest())|)
      ensures if ok then bytes == old(Rest())[..n] && Rest() == old(Rest())[n..] else Rest() == []
    {
      ok := n <= |data| - pos;
      if ok {
        bytes, pos := data[pos..pos + n], pos + n;
      } else {
        bytes, pos := data[pos..], |data|;
      }
    }
  }

  /** The value that the block holds, and 1 for a block that is not laid out like one. */
  method ParseTiffOrientation(tiff: seq<Byte>) returns (orientation: int)
    ensures orientation == TiffOrientation(tiff)
    ensures AnswersBlock(tiff, orientation)
  {
    orientation := ReadDirectory(tiff);
    BlockAnswer(tiff);
  }

  method ReadDirectory(tiff: seq<Byte>) returns (orientation: int)
    ensures orientation == TiffOrientation(tiff)
  {
    if |tiff| < 8 { return 1; }
    var order: Order;
    if tiff[0] == 0x49 && tiff[1] == 0x49 {
      order := Little;
    } else if tiff[0] == 0x4D && tiff[1] == 0x4D {
      order := Big;
    } else {
      return 1;
    }
    if U16(order, tiff[2], tiff[3]) != 42 { return 1; }
    var offset := U32(order, tiff[4], tiff[5], tiff[6], tiff[7]);
    if offset < 8 || offset + 2 > |tiff| { return 1; }
    var entries := U16(order, tiff[offset], tiff[offset + 1]);
    var curr := offset + 2;
    for i := 0 to entries
      invariant offset + 2 <= curr <= |tiff|
      invariant TiffOrientation(tiff) == FirstOrientation(order, tiff[curr..], entries - i)
    {
      if curr + 12 > |tiff| { break; }
      assert tiff[curr..][12..] == tiff[curr + 12..];
      var tag := U16(order, tiff[curr], tiff[curr + 1]);
      if tag == 0x0112 {
        return U16(order, tiff[curr + 8], tiff[curr + 9]);
      }
      curr := curr + 12;
    }
    return 1;
  }

  /** Passes over fill bytes: `code` was read last, and on success the first byte that is not FF is returned. */
  method SkipFill(r: Reader, code0: Byte) returns (ok: bool, code: Byte)
    requires r.Valid()
    modifies r
    ensures r.Valid() && |r.Rest()| <= |old(r.Rest())|
    ensures AfterFill([code0] + old(r.Rest())) == if ok then [code] + r.Rest() else []
    ensures ok ==> code != 0xFF
  {
    code := code0;
    ghost var s := [code] + r.Rest();
    while code == 0xFF
      invariant r.Valid() && |r.Rest()| <= |old(r.Rest())|
      invariant AfterFill(s) == AfterFill([code] + r.Rest())
      decreases |r.Rest()|
    {
      assert ([code] + r.Rest())[1..] == r.Rest();
      ghost var before := r.Rest();
      var got, next := r.ReadFull(1);
      if !got { return false, code; }
      code := next[0];
      assert [code] + r.Rest() == before;
    }
    ok := true;
  }

  /** The value that the stream holds, and 1 for a stream that is not laid out like one. */
  method ReadExifOrientation(r: Reader) returns (orientation: int)
    requires r.Valid()
    modifies r
    ensures r.Valid() && orientation == StreamOrientation(old(r.Rest()))
    ensures AnswersStream(old(r.Rest()), orientation)
  {
    StreamAnswer(r.Rest());
    orientation := ScanSegments(r);
  }

  method ScanSegments(r: Reader) returns (orientation: int)
    requires r.Valid()
    modifies r
    ensures r.Valid() && orientation == StreamOrientation(old(r.Rest()))
  {
    ghost var stream := r.Rest();
    var ok, header := r.ReadFull(2);
    if !ok || header[0] != 0xFF || header[1] != 0xD8 { return 1; }
    while true
      invariant r.Valid() && StreamOrientation(stream) == ScanOrientation(r.Rest())
      decreases |r.Rest()|
    {
      ghost var s := r.Rest();
      var got, marker := r.ReadFull(2);
      if !got || marker[0] != 0xFF { break; }
      assert [marker[1]] + r.Rest() == s[1..];
      var more, code := SkipFill(r, marker[1]);
      if !more { return 1; }
      ghost var t := [code] + r.Rest();
      if code == EOI || code == SOS { break; }
      var done, found := ReadSegment(r, code, t);
      if done { return found; }
    }
    return 1;
  }

  /** Code, length and payload at the front of t. */
  lemma SegmentParts(t: seq<Byte>, length: nat)
    requires |t| >= 3 + length
    ensures t[3..][..length] == t[3..3 + length] && t[3..][length..] == t[3 + length..]
    ensures length > 6 ==> t[3..3 + length][6..] == t[9..3 + length]
  {
  }

  /** The rest of the source's loop body: length, payload, and the Exif test. */
  method ReadSegment(r: Reader, code: Byte, ghost t: seq<Byte>) returns (done: bool, orientation: int)
    requires r.Valid() && t == [code] + r.Rest() && code != EOI && code != SOS
    modifies r
    ensures r.Valid() && |r.Rest()| <= |old(r.Rest())|
    ensures ScanSegment(t) == if done then orientation else ScanOrientation(r.Rest())
  {
    assert r.Rest() == t[1..];
    var got, lengthBytes := r.ReadFull(2);
    if !got { return true, 1; }
    assert lengthBytes == [t[1], t[2]] && r.Rest() == t[3..];
    var length := U16(Big, lengthBytes[0], lengthBytes[1]) - 2;
    if length < 0 { return true, 1; }
    var whole, data := r.ReadFull(length);
    if !whole { return true, 1; }
    SegmentParts(t, length);
    if code == APP1 && |data| > 6 && data[..6] == EXIF_HEADER {
      orientation := ParseTiffOrientation(data[6..]);
      return true, orientation;
    }
    return false, 1;
  }

  // ---------------------------------------------------------------- what is written

  function Put16(o: Order, v: int): seq<Byte>
    requires 0 <= v < 0x1_0000
  {
    if o.Little? then [v % 256, v / 256] else [v / 256, v % 256]
  }

  function Put32(o: Order, v: int): seq<Byte>
    requires 0 <= v < 0x1_0000_0000
  {
    if o.Little? then Put16(o, v % 65536) + Put16(o, v / 65536) else Put16(o, v / 65536) + Put16(o, v % 65536)
  }

  lemma Get16(o: Order, v: int)
    requires 0 <= v < 0x1_0000
    ensures U16(o, Put16(o, v)[0], Put16(o, v)[1]) == v
  {
  }

  lemma Halves(low: int, high: int)
    requires 0 <= low < 65536 && 0 <= high < 65536
    ensures 0 <= low + 65536 * high < 0x1_0000_0000
    ensures (low + 65536 * high) % 65536 == low && (low + 65536 * high) / 65536 == high
  {
  }

  lemma Get32(o: Order, v: int)
    requires 0 <= v < 0x1_0000_0000
    ensures var s := Put32(o, v); |s| == 4 && U32(o, s[0], s[1], s[2], s[3]) == v
  {
    Get16(o, v % 65536);
    Get16(o, v / 65536);
  }

  lemma Put16Get(o: Order, a: Byte, b: Byte)
    ensures 0 <= U16(o, a, b) < 0x1_0000 && Put16(o, U16(o, a, b)) == [a, b]
  {
  }

  lemma Put32Get(o: Order, a: Byte, b: Byte, c: Byte, d: Byte)
    ensures 0 <= U32(o, a, b, c, d) < 0x1_0000_0000 && Put32(o, U32(o, a, b, c, d)) == [a, b, c, d]
  {
    Put16Get(o, a, b);
    Put16Get(o, c, d);
    var p, q := U16(o, a, b), U16(o, c, d);
    Halves(if o.Little? then p else q, if o.Little? then q else p);
  }

  /** A directory entry: its tag and the ten bytes after it. */
  datatype Entry = Entry(tag: int, body: seq<Byte>) {
    predicate WellFormed() { 0 <= tag < 0x1_0000 && |body| == 10 && tag != ORIENTATION_TAG }

    function Bytes(o: Order): (s: seq<Byte>)
      requires WellFormed()
      ensures |s| == 12
    {
      Put16(o, tag) + body
    }
  }

  predicate EntriesOk(es: seq<Entry>) { forall i | 0 <= i < |es| :: es[i].WellFormed() }

  function PutEntries(o: Order, es: seq<Entry>): (s: seq<Byte>)
    requires EntriesOk(es)
    ensures |s| == 12 * |es|
  {
    if es == [] then [] else es[0].Bytes(o) + PutEntries(o, es[1..])
  }

  /**
   * A TIFF block whose first directory holds the orientation: the bytes between header and directory,
   * the entries before the orientation entry, the entry count it declares, the six bytes of field type
   * and value count, the value, and everything after the value.
   */
  datatype Tiff = Tiff(order: Order, gap: seq<Byte>, before: seq<Entry>, declared: int, kind: seq<Byte>, value: int, tail: seq<Byte>) {
    predicate WellFormed() {
      && 8 + |gap| < 0x1_0000_0000
      && EntriesOk(before)
      && |before| < declared < 0x1_0000
      && |kind| == 6 && 0 <= value < 0x1_0000 && |tail| >= 2
    }

    /** Byte-order mark, the number 42 and the offset of the directory. */
    function Header(): (s: seq<Byte>)
      requires WellFormed()
      ensures |s| == 8
    {
      var magic, at := Put16(order, 42), Put32(order, 8 + |gap|);
      var mark: Byte := if order.Little? then 0x49 else 0x4D;
      Get32(order, 8 + |gap|);
      [mark, mark, magic[0], magic[1], at[0], at[1], at[2], at[3]]
    }

    /** The orientation entry up to and including its value. */
    function Field(): (s: seq<Byte>)
      requires WellFormed()
      ensures |s| == 10
    {
      var tag, v := Put16(order, ORIENTATION_TAG), Put16(order, value);
      [tag[0], tag[1], kind[0], kind[1], kind[2], kind[3], kind[4], kind[5], v[0], v[1]]
    }

    function Directory(): seq<Byte>
      requires WellFormed()
    {
      PutEntries(order, before) + (Field() + tail)
    }

    function Bytes(): seq<Byte>
      requires WellFormed()
    {
      Header() + (gap + (Put16(order, declared) + Directory()))
    }
  }

  /** A marker segment: `fill` extra FF bytes, the marker code and the payload. */
  datatype Segment = Segment(fill: nat, marker: Byte, payload: seq<Byte>) {
    predicate WellFormed() {
      marker != 0xFF && marker != EOI && marker != SOS && |payload| + 2 < 0x1_0000
    }

    /** A segment the scanner passes over. */
    predicate Skipped() { WellFormed() && !(marker == APP1 && IsExif(payload)) }

    function Bytes(): seq<Byte>
      requires WellFormed()
    {
      Fill(fill + 1) + [marker] + Put16(Big, |payload| + 2) + payload
    }
  }

  function Fill(n: nat): seq<Byte> { if n == 0 then [] else [0xFF] + Fill(n - 1) }

  predicate AllSkipped(segs: seq<Segment>) { forall i | 0 <= i < |segs| :: segs[i].Skipped() }

  function PutSegments(segs: seq<Segment>): seq<Byte>
    requires AllSkipped(segs)
  {
    if segs == [] then [] else segs[0].Bytes() + PutSegments(segs[1..])
  }

  /** A stream: start of image, skipped segments, an Exif segment around `tiff`, and anything after it. */
  datatype Jpeg = Jpeg(segs: seq<Segment>, fill: nat, tiff: seq<Byte>, tail: seq<Byte>) {
    predicate WellFormed() {
      AllSkipped(segs) && 0 < |tiff| && |tiff| + 8 < 0x1_0000
    }

    function ExifSegment(): (g: Segment)
      requires WellFormed()
      ensures g.WellFormed() && IsExif(g.payload)
    {
      assert (EXIF_HEADER + tiff)[..6] == EXIF_HEADER;
      Segment(fill, APP1, EXIF_HEADER + tiff)
    }

    function Bytes(): seq<Byte>
      requires WellFormed()
    {
      [0xFF, 0xD8] + (PutSegments(segs) + (ExifSegment().Bytes() + tail))
    }
  }

  // ---------------------------------------------------------------- everything written is read back

  lemma EntrySkipped(o: Order, e: Entry, rest: seq<Byte>, n: nat)
    requires e.WellFormed() && n > 0
    ensures FirstOrientation(o, e.Bytes(o) + rest, n) == FirstOrientation(o, rest, n - 1)
  {
    var s := e.Bytes(o) + rest;
    Get16(o, e.tag);
    assert s[0] == Put16(o, e.tag)[0] && s[1] == Put16(o, e.tag)[1] && s[12..] == rest;
  }

  lemma {:induction false} EntriesSkipped(o: Order, es: seq<Entry>, rest: seq<Byte>, n: nat)
    requires EntriesOk(es) && |es| <= n
    ensures FirstOrientation(o, PutEntries(o, es) + rest, n) == FirstOrientation(o, rest, n - |es|)
  {
    if es == [] {
      assert PutEntries(o, es) + rest == rest;
    } else {
      assert PutEntries(o, es) + rest == es[0].Bytes(o) + (PutEntries(o, es[1..]) + rest);
      EntrySkipped(o, es[0], PutEntries(o, es[1..]) + rest, n);
      EntriesSkipped(o, es[1..], rest, n - 1);
    }
  }

  lemma DirectoryReadBack(t: Tiff)
    requires t.WellFormed()
    ensures FirstOrientation(t.order, t.Directory(), t.declared) == t.value
  {
    EntriesSkipped(t.order, t.before, t.Field() + t.tail, t.declared);
    Get16(t.order, ORIENTATION_TAG);
    Get16(t.order, t.value);
  }

  lemma LayoutRead(o: Order, head: seq<Byte>, gap: seq<Byte>, count: seq<Byte>, dir: seq<Byte>)
    requires |head| == 8 && |count| == 2
    requires head[0] == head[1] == (if o.Little? then 0x49 else 0x4D) && U16(o, head[2], head[3]) == 42
    requires U32(o, head[4], head[5], head[6], head[7]) == 8 + |gap|
    ensures TiffOrientation(head + (gap + (count + dir))) == FirstOrientation(o, dir, U16(o, count[0], count[1]))
  {
    var rest := gap + (count + dir);
    var b, at := head + rest, 8 + |gap|;
    assert forall i | 0 <= i < 8 :: b[i] == head[i];
    assert rest[|gap|] == count[0] && rest[|gap| + 1] == count[1];
    assert b[at] == count[0] && b[at + 1] == count[1];
    assert b[at + 2..] == dir;
  }

  /** In either byte order the reader returns exactly the value the orientation entry holds. */
  lemma TiffReadBack(t: Tiff)
    requires t.WellFormed()
    ensures TiffOrientation(t.Bytes()) == t.value
  {
    Get16(t.order, 42);
    Get32(t.order, 8 + |t.gap|);
    Get16(t.order, t.declared);
    LayoutRead(t.order, t.Header(), t.gap, Put16(t.order, t.declared), t.Directory());
    DirectoryReadBack(t);
  }

  lemma {:induction false} FillSkipped(n: nat, rest: seq<Byte>)
    requires rest != [] && rest[0] != 0xFF
    ensures AfterFill(Fill(n) + rest) == rest
  {
    if n == 0 {
      assert Fill(n) + rest == rest;
    } else {
      assert (Fill(n) + rest)[1..] == Fill(n - 1) + rest;
      FillSkipped(n - 1, rest);
    }
  }

  /** How the scanner sees a segment at the front of the stream. */
  lemma SegmentSeen(g: Segment, rest: seq<Byte>)
    requires g.WellFormed()
    ensures ScanOrientation(g.Bytes() + rest) ==
              if g.marker == APP1 && IsExif(g.payload) then TiffOrientation(g.payload[6..]) else ScanOrientation(rest)
  {
    var s := g.Bytes() + rest;
    var t := [g.marker] + Put16(Big, |g.payload| + 2) + g.payload + rest;
    assert Fill(g.fill + 1)[0] == 0xFF && s[0] == 0xFF;
    assert s[1..] == Fill(g.fill) + t;
    FillSkipped(g.fill, t);
    Get16(Big, |g.payload| + 2);
    assert t[1] == Put16(Big, |g.payload| + 2)[0] && t[2] == Put16(Big, |g.payload| + 2)[1];
    assert t[3..3 + |g.payload|] == g.payload && t[3 + |g.payload|..] == rest;
    if IsExif(g.payload) {
      assert t[9..3 + |g.payload|] == g.payload[6..];
    }
  }

  lemma {:induction false} SegmentsSkipped(segs: seq<Segment>, rest: seq<Byte>)
    requires AllSkipped(segs)
    ensures ScanOrientation(PutSegments(segs) + rest) == ScanOrientation(rest)
  {
    if segs == [] {
      assert PutSegments(segs) + rest == rest;
    } else {
      assert segs[0].Skipped();
      assert PutSegments(segs) + rest == segs[0].Bytes() + (PutSegments(segs[1..]) + rest);
      SegmentSeen(segs[0], PutSegments(segs[1..]) + rest);
      SegmentsSkipped(segs[1..], rest);
    }
  }

  lemma JpegReadBack(j: Jpeg)
    requires j.WellFormed()
    ensures StreamOrientation(j.Bytes()) == TiffOrientation(j.tiff)
  {
    var g := j.ExifSegment();
    assert j.Bytes()[2..] == PutSegments(j.segs) + (g.Bytes() + j.tail);
    SegmentsSkipped(j.segs, g.Bytes() + j.tail);
    SegmentSeen(g, j.tail);
    assert g.payload[6..] == j.tiff;
  }

  /** Whatever segments come first, whatever the fill bytes, byte order and neighbours: the stored value is returned. */
  lemma OrientationReadBack(j: Jpeg, t: Tiff)
    requires j.WellFormed() && t.WellFormed() && j.tiff == t.Bytes()
    ensures StreamOrientation(j.Bytes()) == t.value
  {
    JpegReadBack(j);
    TiffReadBack(t);
  }

  // ---------------------------------------------------------------- nothing else is read

  lemma {:induction false} EntriesFound(o: Order, s: seq<Byte>, n: nat) returns (es: seq<Entry>, rest: seq<Byte>)
    requires FirstOrientation(o, s, n) != 1
    ensures EntriesOk(es) && |es| < n && s == PutEntries(o, es) + rest
    ensures |rest| >= 12 && U16(o, rest[0], rest[1]) == ORIENTATION_TAG
    ensures FirstOrientation(o, s, n) == U16(o, rest[8], rest[9])
  {
    if U16(o, s[0], s[1]) == ORIENTATION_TAG {
      es, rest := [], s;
      assert s == PutEntries(o, es) + rest;
    } else {
      es, rest := EntriesFound(o, s[12..], n - 1);
      var e := EntryFound(o, s);
      EntryPrepended(o, e, es, rest);
      es := [e] + es;
    }
  }

  /** The entry at the front of s. */
  lemma EntryFound(o: Order, s: seq<Byte>) returns (e: Entry)
    requires |s| >= 12 && U16(o, s[0], s[1]) != ORIENTATION_TAG
    ensures e.WellFormed() && s == e.Bytes(o) + s[12..]
  {
    Put16Get(o, s[0], s[1]);
    e := Entry(U16(o, s[0], s[1]), s[2..12]);
    assert s == [s[0], s[1]] + s[2..12] + s[12..];
  }

  lemma EntryPrepended(o: Order, e: Entry, es: seq<Entry>, more: seq<Byte>)
    requires e.WellFormed() && EntriesOk(es)
    ensures EntriesOk([e] + es) && PutEntries(o, [e] + es) + more == e.Bytes(o) + (PutEntries(o, es) + more)
  {
    assert ([e] + es)[1..] == es;
  }

  lemma FieldFound(t: Tiff, rest: seq<Byte>)
    requires t.WellFormed() && |rest| >= 12 && U16(t.order, rest[0], rest[1]) == ORIENTATION_TAG
    requires t.kind == rest[2..8] && t.value == U16(t.order, rest[8], rest[9]) && t.tail == rest[10..]
    ensures t.Field() + t.tail == rest
  {
    Put16Get(t.order, rest[0], rest[1]);
    Put16Get(t.order, rest[8], rest[9]);
    assert t.Field() == rest[..10];
  }

  lemma HeaderFound(t: Tiff, b: seq<Byte>)
    requires t.WellFormed() && |b| >= 8 && OrderOf(b) == [t.order] && U16(t.order, b[2], b[3]) == 42
    requires U32(t.order, b[4], b[5], b[6], b[7]) == 8 + |t.gap|
    ensures t.Header() == b[..8]
  {
    Put16Get(t.order, b[2], b[3]);
    Put32Get(t.order, b[4], b[5], b[6], b[7]);
  }

  lemma CutInFour(b: seq<Byte>, i: nat, j: nat, k: nat)
    requires i <= j <= k <= |b|
    ensures b == b[..i] + (b[i..j] + (b[j..k] + b[k..]))
  {
  }

  /** An answer other than 1 comes from a TIFF block that really holds it. */
  lemma TiffFound(b: seq<Byte>) returns (t: Tiff)
    requires TiffOrientation(b) != 1
    ensures t.WellFormed() && b == t.Bytes() && t.value == TiffOrientation(b)
  {
    var o := OrderOf(b)[0];
    var at := U32(o, b[4], b[5], b[6], b[7]);
    var n := U16(o, b[at], b[at + 1]);
    var es, rest := EntriesFound(o, b[at + 2..], n);
    Put32Get(o, b[4], b[5], b[6], b[7]);
    Put16Get(o, b[at], b[at + 1]);
    Put16Get(o, rest[8], rest[9]);
    t := Tiff(o, b[8..at], es, n, rest[2..8], U16(o, rest[8], rest[9]), rest[10..]);
    FieldFound(t, rest);
    HeaderFound(t, b);
    CutInFour(b, 8, at, at + 2);
    assert b[at..at + 2] == [b[at], b[at + 1]];
  }

  lemma {:induction false} FillFound(s: seq<Byte>) returns (n: nat)
    ensures s == Fill(n) + AfterFill(s)
  {
    if s != [] && s[0] == 0xFF {
      n := FillFound(s[1..]);
      assert s == [0xFF] + s[1..] == [0xFF] + Fill(n) + AfterFill(s[1..]);
      n := n + 1;
    } else {
      n := 0;
    }
  }

  /** The segment at the front of s, which has n fill bytes before the code at the front of t. */
  lemma SegmentFound(s: seq<Byte>, n: nat, t: seq<Byte>) returns (g: Segment, rest: seq<Byte>)
    requires s != [] && s[0] == 0xFF && s[1..] == Fill(n) + t && |t| >= 3
    requires t[0] != 0xFF && t[0] != EOI && t[0] != SOS
    requires 0 <= U16(Big, t[1], t[2]) - 2 <= |t| - 3
    ensures g == Segment(n, t[0], t[3..1 + U16(Big, t[1], t[2])]) && rest == t[1 + U16(Big, t[1], t[2])..]
    ensures g.WellFormed() && s == g.Bytes() + rest
  {
    var end := 1 + U16(Big, t[1], t[2]);
    Put16Get(Big, t[1], t[2]);
    g, rest := Segment(n, t[0], t[3..end]), t[end..];
    assert t == [t[0]] + [t[1], t[2]] + t[3..end] + t[end..];
    assert s == [0xFF] + s[1..];
  }

  lemma {:induction false} ScanFound(s: seq<Byte>) returns (segs: seq<Segment>, fill: nat, tiff: seq<Byte>, tail: seq<Byte>)
    requires ScanOrientation(s) != 1
    ensures Jpeg(segs, fill, tiff, tail).WellFormed() && TiffOrientation(tiff) == ScanOrientation(s)
    ensures s == PutSegments(segs) + (Jpeg(segs, fill, tiff, tail).ExifSegment().Bytes() + tail)
    decreases |s|
  {
    var t := AfterFill(s[1..]);
    var n := FillFound(s[1..]);
    var g, rest := SegmentFound(s, n, t);
    if g.marker == APP1 && IsExif(g.payload) {
      segs, fill, tiff, tail := [], n, g.payload[6..], rest;
      assert tiff == t[9..1 + U16(Big, t[1], t[2])];
      assert g.payload == EXIF_HEADER + tiff;
      assert PutSegments(segs) + (g.Bytes() + tail) == g.Bytes() + tail;
    } else {
      segs, fill, tiff, tail := ScanFound(rest);
      SegmentPrepended(g, segs, Jpeg(segs, fill, tiff, tail).ExifSegment().Bytes() + tail);
      segs := [g] + segs;
    }
  }

  lemma SegmentPrepended(g: Segment, segs: seq<Segment>, more: seq<Byte>)
    requires g.Skipped() && AllSkipped(segs)
    ensures AllSkipped([g] + segs)
    ensures PutSegments([g] + segs) + more == g.Bytes() + (PutSegments(segs) + more)
  {
    assert ([g] + segs)[1..] == segs;
  }

  /** An answer other than 1 comes from a stream that is laid out as above and holds that value. */
  lemma {:induction false} OrientationFound(s: seq<Byte>) returns (j: Jpeg, t: Tiff)
    requires StreamOrientation(s) != 1
    ensures j.WellFormed() && t.WellFormed() && j.tiff == t.Bytes() && s == j.Bytes() && t.value == StreamOrientation(s)
  {
    var segs, fill, tiff, tail := ScanFound(s[2..]);
    t := TiffFound(tiff);
    j := Jpeg(segs, fill, tiff, tail);
    BehindStart(s, PutSegments(segs) + (j.ExifSegment().Bytes() + tail));
  }

  lemma BehindStart(s: seq<Byte>, behind: seq<Byte>)
    requires |s| >= 2 && s[0] == 0xFF && s[1] == 0xD8 && s[2..] == behind
    ensures s == [0xFF, 0xD8] + behind
  {
  }

  // ---------------------------------------------------------------- the answer, exactly

  /** The block b is the written form of t. */
  ghost predicate BlockHolds(b: seq<Byte>, t: Tiff) { t.WellFormed() && b == t.Bytes() }

  /** The stream s is the written form of j around the block t. */
  ghost predicate StreamHolds(s: seq<Byte>, j: Jpeg, t: Tiff) {
    j.WellFormed() && s == j.Bytes() && BlockHolds(j.tiff, t)
  }

  /** The value the block holds, or 1 if it holds none. */
  ghost predicate AnswersBlock(b: seq<Byte>, answer: int) {
    (forall t | BlockHolds(b, t) :: answer == t.value) && ((forall t :: !BlockHolds(b, t)) ==> answer == 1)
  }

  /** The value the stream holds, or 1 if it holds none. */
  ghost predicate AnswersStream(s: seq<Byte>, answer: int) {
    (forall j, t | StreamHolds(s, j, t) :: answer == t.value) && ((forall j, t :: !StreamHolds(s, j, t)) ==> answer == 1)
  }

  /** Every block either holds an orientation, and that is the answer, or it holds none and the answer is 1. */
  lemma BlockAnswer(b: seq<Byte>)
    ensures AnswersBlock(b, TiffOrientation(b))
  {
    forall t | BlockHolds(b, t) ensures TiffOrientation(b) == t.value { TiffReadBack(t); }
    if TiffOrientation(b) != 1 {
      var t := TiffFound(b);
      assert BlockHolds(b, t);
    }
  }

  /** Every stream either holds an orientation, and that is the answer, or it holds none and the answer is 1. */
  lemma StreamAnswer(s: seq<Byte>)
    ensures AnswersStream(s, StreamOrientation(s))
  {
    forall j, t | StreamHolds(s, j, t) ensures StreamOrientation(s) == t.value { OrientationReadBack(j, t); }
    if StreamOrientation(s) != 1 {
      var j, t := OrientationFound(s);
      assert StreamHolds(s, j, t);
    }
  }

  // ---------------------------------------------------------------- by the numbers

  /** A block in either byte order whose first entry has tag 0x0112: the two bytes after field type and count are the answer. */
  lemma BlockByNumbers(kind: seq<Byte>, low: Byte, high: Byte, rest: seq<Byte>)
    requires |kind| == 6 && |rest| >= 2
    ensures TiffOrientation([0x49, 0x49, 0x2A, 0, 8, 0, 0, 0, 1, 0, 0x12, 0x01] + (kind + ([low, high] + rest))) == low + 256 * high
    ensures TiffOrientation([0x4D, 0x4D, 0, 0x2A, 0, 0, 0, 8, 0, 1, 0x01, 0x12] + (kind + ([high, low] + rest))) == low + 256 * high
  {
    EntryByNumbers(Little, [0x49, 0x49, 0x2A, 0, 8, 0, 0, 0, 1, 0, 0x12, 0x01], kind, [low, high], rest);
    EntryByNumbers(Big, [0x4D, 0x4D, 0, 0x2A, 0, 0, 0, 8, 0, 1, 0x01, 0x12], kind, [high, low], rest);
  }

  lemma EntryByNumbers(o: Order, head: seq<Byte>, kind: seq<Byte>, value: seq<Byte>, rest: seq<Byte>)
    requires |head| == 12 && |kind| == 6 && |value| == 2 && |rest| >= 2
    requires OrderOf(head) == [o] && U16(o, head[2], head[3]) == 42 && U32(o, head[4], head[5], head[6], head[7]) == 8
    requires U16(o, head[8], head[9]) == 1 && U16(o, head[10], head[11]) == 0x0112
    ensures TiffOrientation(head + (kind + (value + rest))) == U16(o, value[0], value[1])
  {
    var b := head + (kind + (value + rest));
    assert forall i | 0 <= i < 12 :: b[i] == head[i];
    var d := b[10..];
    assert d[0] == head[10] && d[1] == head[11] && d[8] == value[0] && d[9] == value[1];
    assert TiffOrientation(b) == FirstOrientation(o, d, 1);
  }

  /** A segment at the front, with any fill bytes: marker 0xE1 and the six Exif bytes lead to the block,
      0xD9 and 0xDA end the search, and everything else is passed over by its big-endian length. */
  lemma SegmentByNumbers(fill: nat, code: Byte, high: Byte, low: Byte, payload: seq<Byte>, rest: seq<Byte>)
    requires code != 0xFF && 256 * high + low == |payload| + 2
    ensures ScanOrientation(Fill(fill + 1) + [code] + [high, low] + payload + rest) ==
              if code == 0xD9 || code == 0xDA then 1
              else if code == 0xE1 && |payload| > 6 && payload[..6] == [0x45, 0x78, 0x69, 0x66, 0, 0] then TiffOrientation(payload[6..])
              else ScanOrientation(rest)
  {
    if code == 0xD9 || code == 0xDA {
      EndSeen(fill, code, [high, low] + payload + rest);
      assert Fill(fill + 1) + [code] + ([high, low] + payload + rest) == Fill(fill + 1) + [code] + [high, low] + payload + rest;
    } else {
      Get16(Big, |payload| + 2);
      assert Put16(Big, |payload| + 2) == [high, low];
      SegmentSeen(Segment(fill, code, payload), rest);
    }
  }

  lemma EndSeen(fill: nat, code: Byte, rest: seq<Byte>)
    requires code == EOI || code == SOS
    ensures ScanOrientation(Fill(fill + 1) + [code] + rest) == 1
  {
    var s := Fill(fill + 1) + [code] + rest;
    assert s[0] == 0xFF && s[1..] == Fill(fill) + ([code] + rest);
    FillSkipped(fill, [code] + rest);
  }

  /** A whole stream: SOI, a segment that is passed over, a fill byte, and an Exif segment that says 6. */
  lemma StreamByNumbers(rest: seq<Byte>)
    ensures var block: seq<Byte> := [0x49, 0x49, 0x2A, 0, 8, 0, 0, 0, 1, 0, 0x12, 0x01] + ([3, 0, 1, 0, 0, 0] + ([6, 0] + [0, 0]));
            var exif := Fill(2) + [0xE1] + [0, 30] + ([0x45, 0x78, 0x69, 0x66, 0, 0] + block) + rest;
            var app0 := Fill(1) + [0xE0] + [0, 4] + [7, 7] + exif;
            StreamOrientation([0xFF, 0xD8] + app0) == 6
  {
    var block: seq<Byte> := [0x49, 0x49, 0x2A, 0, 8, 0, 0, 0, 1, 0, 0x12, 0x01] + ([3, 0, 1, 0, 0, 0] + ([6, 0] + [0, 0]));
    var payload := [0x45, 0x78, 0x69, 0x66, 0, 0] + block;
    var exif := Fill(2) + [0xE1] + [0, 30] + payload + rest;
    var app0 := Fill(1) + [0xE0] + [0, 4] + [7, 7] + exif;
    BlockByNumbers([3, 0, 1, 0, 0, 0], 6, 0, [0, 0]);
    assert payload[6..] == block && payload[..6] == [0x45, 0x78, 0x69, 0x66, 0, 0];
    SegmentByNumbers(1, 0xE1, 0, 30, payload, rest);
    SegmentByNumbers(0, 0xE0, 0, 4, [7, 7], exif);
    assert ([0xFF, 0xD8] + app0)[2..] == app0;
  }

  /** A stream that does not start with the bytes FF D8, as no PNG does, answers 1 because it holds nothing. */
  lemma OtherStreamsByNumbers(s: seq<Byte>)
    requires |s| < 2 || s[0] != 0xFF || s[1] != 0xD8
    ensures StreamOrientation(s) == 1 && forall j, t :: !StreamHolds(s, j, t)
  {
  }
}
