/** GEM resource images as values: little-endian words, the tables a header describes, and what relocation makes of
    each record. */
module ResourceFormat {
  import opened WordMath

  /** An address as a record holds it: an offset, and in a loaded image its segment. */
  datatype Pair = Pair(lo: UWord, hi: UWord)

  const ABSENT := Pair(0xffff, 0xffff)

  function WordIn(b: seq<Byte>, o: int): UWord {
    if 0 <= o && o + 1 < |b| then b[o] as int + 0x100 * b[o + 1] as int else 0
  }

  function PairIn(b: seq<Byte>, o: int): Pair {
    Pair(WordIn(b, o), WordIn(b, o + 2))
  }

  function WithWord(b: seq<Byte>, o: int, v: UWord): (b': seq<Byte>)
    ensures |b'| == |b|
  {
    if 0 <= o && o + 1 < |b| then b[o := v % 0x100][o + 1 := v / 0x100] else b
  }

  /** Nothing in [from, to) changed. */
  ghost predicate Kept(b: seq<Byte>, b': seq<Byte>, from: int, to: int) {
    |b'| == |b| && forall k | from <= k < to && 0 <= k < |b| :: b'[k] == b[k]
  }

  /** Nothing outside [from, to) changed. */
  ghost predicate Touched(b: seq<Byte>, b': seq<Byte>, from: int, to: int) {
    |b'| == |b| && forall k | 0 <= k < |b| && !(from <= k < to) :: b'[k] == b[k]
  }

  lemma WithWordIs(b: seq<Byte>, o: int, v: UWord)
    requires 0 <= o && o + 1 < |b|
    ensures WordIn(WithWord(b, o, v), o) == v && Touched(b, WithWord(b, o, v), o, o + 2)
  {
  }

  lemma KeptWord(b: seq<Byte>, b': seq<Byte>, from: int, to: int, o: int)
    requires Kept(b, b', from, to) && from <= o && o + 2 <= to
    ensures WordIn(b', o) == WordIn(b, o)
  {
  }

  // Tables

  const HEADER_BYTES := 36

  /** Where a table starts and how many records it has. */
  datatype Table = Table(start: UWord, count: UWord)

  /** The tables in the order they are checked in, and the other header words that matter. */
  datatype Header = Header(tables: seq<Table>, text: UWord, data: UWord, size: UWord)

  const TABLES := 7
  const OBJECTS := 0
  const TEDS := 1
  const ICONS := 2
  const BITS := 3
  const STRINGS := 4
  const IMAGES := 5
  const TREES := 6

  function HeaderOf(b: seq<Byte>): (h: Header)
    ensures |h.tables| == TABLES
  {
    Header([Table(WordIn(b, 2), WordIn(b, 20)), Table(WordIn(b, 4), WordIn(b, 24)), Table(WordIn(b, 6), WordIn(b, 26)),
            Table(WordIn(b, 8), WordIn(b, 28)), Table(WordIn(b, 10), WordIn(b, 30)),
            Table(WordIn(b, 16), WordIn(b, 32)), Table(WordIn(b, 18), WordIn(b, 22))],
           WordIn(b, 12), WordIn(b, 14), WordIn(b, 34))
  }

  /** The size of one record of a table. */
  function Bytes(t: int): (n: nat)
    ensures 4 <= n <= 34
  {
    if t == OBJECTS then 24 else if t == TEDS then 28 else if t == ICONS then 34 else if t == BITS then 14 else 4
  }

  function Place(start: int, bytes: int, i: int): int {
    start + i * bytes
  }

  lemma PlaceNext(start: int, bytes: int, i: int)
    ensures Place(start, bytes, i + 1) == Place(start, bytes, i) + bytes == Place(start + bytes, bytes, i)
    ensures Place(start, bytes, 0) == start
  {
  }

  lemma PlaceOrder(start: int, bytes: nat, i: int, j: int)
    requires i <= j
    ensures Place(start, bytes, i) <= Place(start, bytes, j)
  {
  }

  function TableAt(h: Header, t: int): Table {
    if 0 <= t < |h.tables| then h.tables[t] else Table(0, 0)
  }

  /** Record i of table t, and where the table ends. */
  function Record(h: Header, t: int, i: int): int {
    Place(TableAt(h, t).start, Bytes(t), i)
  }

  function End(h: Header, t: int): int {
    Record(h, t, TableAt(h, t).count)
  }

  /** The table lies in the image, behind the header and on a word boundary; the place of an empty one is free. */
  predicate TableFits(h: Header, t: int) {
    && TableAt(h, t).start <= h.size && End(h, t) <= h.size
    && (TableAt(h, t).count > 0 ==> TableAt(h, t).start >= HEADER_BYTES && TableAt(h, t).start % 2 == 0)
  }

  /** Two tables have bytes in common. */
  predicate Meet(h: Header, s: int, t: int) {
    && TableAt(h, s).count > 0 && TableAt(h, t).count > 0
    && TableAt(h, s).start < End(h, t) && TableAt(h, t).start < End(h, s)
  }

  ghost predicate HeaderFits(h: Header) {
    && |h.tables| == TABLES && h.size >= HEADER_BYTES && h.text <= h.size && h.data <= h.size
    && (TableAt(h, TREES).count > 0 ==> TableAt(h, OBJECTS).count > 0)
    && (forall t | 0 <= t < TABLES :: TableFits(h, t))
    && (forall s, t | 0 <= s < t < TABLES :: !Meet(h, s, t))
  }

  /** The byte belongs to table t. */
  ghost predicate Inside(h: Header, t: int, k: int) {
    TableAt(h, t).start <= k < End(h, t)
  }

  ghost predicate Tabled(h: Header, k: int) {
    exists t | 0 <= t < TABLES :: Inside(h, t, k)
  }

  /** The byte belongs to no table, nor to the header. */
  ghost predicate Spare(h: Header, k: int) {
    k >= HEADER_BYTES && !Tabled(h, k)
  }

  lemma OneTable(h: Header, s: int, t: int, k: int)
    requires HeaderFits(h) && 0 <= s < TABLES && 0 <= t < TABLES && Inside(h, s, k) && Inside(h, t, k)
    ensures s == t && HEADER_BYTES <= k < h.size
  {
    assert TableFits(h, s) && TableFits(h, t);
    assert TableAt(h, s).count > 0 && TableAt(h, t).count > 0 by {
      PlaceNext(TableAt(h, s).start, Bytes(s), 0);
      PlaceNext(TableAt(h, t).start, Bytes(t), 0);
    }
    assert s < t ==> !Meet(h, s, t);
    assert t < s ==> !Meet(h, t, s);
  }

  /** The bytes of a record belong to its table. */
  lemma RecordInside(h: Header, t: int, i: int)
    requires 0 <= i < TableAt(h, t).count
    ensures TableAt(h, t).start <= Record(h, t, i) && Record(h, t, i) + Bytes(t) <= End(h, t)
  {
    var start := TableAt(h, t).start;
    PlaceNext(start, Bytes(t), i);
    PlaceNext(start, Bytes(t), 0);
    PlaceOrder(start, Bytes(t), 0, i);
    PlaceOrder(start, Bytes(t), i + 1, TableAt(h, t).count);
  }

  // Text

  /** The place of the first zero byte from `o` on; the end of the image, or `o` behind it, when there is none. */
  function TextEnd(b: seq<Byte>, o: nat): (end: nat)
    ensures o <= end && (end < |b| ==> b[end] == 0) && (end >= |b| ==> end == o || end == |b|)
    ensures forall k | o <= k < end && k < |b| :: b[k] != 0
    decreases |b| - o
  {
    if o >= |b| || b[o] == 0 then o else TextEnd(b, o + 1)
  }

  /** The text ends where it did when its zero bytes are where they were. */
  lemma TextSame(b: seq<Byte>, b': seq<Byte>, o: nat)
    requires |b'| == |b| && forall k | o <= k <= TextEnd(b, o) && k < |b| :: b'[k] == 0 <==> b[k] == 0
    ensures TextEnd(b', o) == TextEnd(b, o)
  {
  }

  /** The text at `o` and its end stay clear of the header and of all tables. */
  ghost predicate TextApart(b: seq<Byte>, h: Header, o: nat) {
    forall k | o <= k <= TextEnd(b, o) :: Spare(h, k)
  }

  // Records of pointers

  /** An address gets its segment; a missing one stays missing. */
  function FixPair(b: seq<Byte>, o: int, segment: UWord): (b': seq<Byte>)
    ensures |b'| == |b|
  {
    if PairIn(b, o) == ABSENT then b else WithWord(b, o + 2, segment)
  }

  /** The address of a text gets its segment, and the word at `len` the text's length with its end. */
  function FixText(b: seq<Byte>, o: int, len: int, segment: UWord): (b': seq<Byte>)
    ensures |b'| == |b|
  {
    var b' := FixPair(b, o, segment);
    var lo := WordIn(b, o);
    if PairIn(b, o) == ABSENT || TextEnd(b', lo) >= |b| then b' else WithWord(b', len, Low(TextEnd(b', lo) - lo + 1))
  }

  /** A record of any table but the objects. */
  function FixRecord(b: seq<Byte>, t: int, o: int, segment: UWord): (b': seq<Byte>)
    ensures |b'| == |b|
  {
    if t == TEDS then FixPair(FixText(FixText(b, o, o + 24, segment), o + 4, o + 26, segment), o + 8, segment)
    else if t == ICONS then FixPair(FixPair(FixPair(b, o, segment), o + 4, segment), o + 8, segment)
    else FixPair(b, o, segment)
  }

  /** The n records from `o` on. */
  function FixAll(b: seq<Byte>, t: int, o: int, n: nat, segment: UWord): (b': seq<Byte>)
    ensures |b'| == |b|
    decreases n
  {
    if n == 0 then b else FixAll(FixRecord(b, t, o, segment), t, o + Bytes(t), n - 1, segment)
  }

  /** The offset is what it was, and the segment is set unless the address is missing. */
  ghost predicate PairDone(b: seq<Byte>, b': seq<Byte>, o: int, segment: UWord) {
    && WordIn(b', o) == WordIn(b, o)
    && WordIn(b', o + 2) == if PairIn(b, o) == ABSENT then WordIn(b, o + 2) else segment
  }

  /** The length of a text that stays clear of the tables is on record; it is left alone when the text has no end. */
  ghost predicate LengthDone(b: seq<Byte>, b': seq<Byte>, h: Header, o: int, len: int) {
    var (lo, was) := (WordIn(b, o), WordIn(b, len));
    && (PairIn(b, o) == ABSENT ==> WordIn(b', len) == was)
    && (PairIn(b, o) != ABSENT && TextApart(b, h, lo) ==>
          WordIn(b', len) == if TextEnd(b, lo) < |b| then Low(TextEnd(b, lo) - lo + 1) else was)
  }

  /** A record got its segments, and apart from text lengths nothing else in it changed. */
  ghost predicate RecordDone(b: seq<Byte>, b': seq<Byte>, h: Header, t: int, o: int, segment: UWord) {
    && |b'| == |b| && PairDone(b, b', o, segment)
    && (t == TEDS || t == ICONS ==> PairDone(b, b', o + 4, segment) && PairDone(b, b', o + 8, segment))
    && (t == TEDS ==> Kept(b, b', o + 12, o + 24)
                      && LengthDone(b, b', h, o, o + 24) && LengthDone(b, b', h, o + 4, o + 26))
    && (t == ICONS ==> Kept(b, b', o + 12, o + Bytes(t)))
    && (t == BITS ==> Kept(b, b', o + 4, o + Bytes(t)))
  }

  lemma PairIs(b: seq<Byte>, o: int, segment: UWord)
    requires 0 <= o && o + 4 <= |b|
    ensures PairDone(b, FixPair(b, o, segment), o, segment) && Touched(b, FixPair(b, o, segment), o + 2, o + 4)
  {
    hide WithWord;
    if PairIn(b, o) != ABSENT {
      WithWordIs(b, o + 2, segment);
    }
  }

  lemma TextIs(b: seq<Byte>, h: Header, o: int, len: int, segment: UWord)
    requires 0 <= o && o + 4 <= len && len + 2 <= |b| && forall k | o <= k < o + 4 :: Tabled(h, k)
    ensures var b' := FixText(b, o, len, segment);
            && PairDone(b, b', o, segment) && LengthDone(b, b', h, o, len)
            && forall k | 0 <= k < |b| && !(o + 2 <= k < o + 4) && !(len <= k < len + 2) :: b'[k] == b[k]
  {
    hide WithWord, FixPair;
    var b1 := FixPair(b, o, segment);
    var lo := WordIn(b, o);
    PairIs(b, o, segment);
    if PairIn(b, o) != ABSENT {
      WithWordIs(b1, len, Low(if TextEnd(b1, lo) < |b| then TextEnd(b1, lo) - lo + 1 else 0));
      if TextApart(b, h, lo) {
        forall k | lo <= k <= TextEnd(b, lo) && k < |b|
          ensures b1[k] == b[k]
        {
          assert Spare(h, k);
        }
        TextSame(b, b1, lo);
      }
    }
  }

  /** Fixing a record does that, and touches no other byte. */
  lemma RecordIs(b: seq<Byte>, h: Header, t: int, o: int, segment: UWord)
    requires 0 <= o && o + Bytes(t) <= |b| && t != OBJECTS && forall k | o <= k < o + Bytes(t) :: Tabled(h, k)
    ensures RecordDone(b, FixRecord(b, t, o, segment), h, t, o, segment)
    ensures Touched(b, FixRecord(b, t, o, segment), o, o + Bytes(t))
  {
    hide FixPair, FixText;
    if t == TEDS {
      TedIs(b, h, o, segment);
    } else if t == ICONS {
      IconIs(b, o, segment);
    } else {
      PairIs(b, o, segment);
    }
  }

  lemma IconIs(b: seq<Byte>, o: int, segment: UWord)
    requires 0 <= o && o + 34 <= |b|
    ensures var b' := FixPair(FixPair(FixPair(b, o, segment), o + 4, segment), o + 8, segment);
            && PairDone(b, b', o, segment) && PairDone(b, b', o + 4, segment) && PairDone(b, b', o + 8, segment)
            && Kept(b, b', o + 12, o + 34) && Touched(b, b', o, o + 34)
  {
    hide FixPair;
    var b1 := FixPair(b, o, segment);
    var b2 := FixPair(b1, o + 4, segment);
    PairIs(b, o, segment);
    PairIs(b1, o + 4, segment);
    PairIs(b2, o + 8, segment);
  }

  lemma TedIs(b: seq<Byte>, h: Header, o: int, segment: UWord)
    requires 0 <= o && o + 28 <= |b| && forall k | o <= k < o + 28 :: Tabled(h, k)
    ensures RecordDone(b, FixRecord(b, TEDS, o, segment), h, TEDS, o, segment)
    ensures Touched(b, FixRecord(b, TEDS, o, segment), o, o + 28)
  {
    hide FixPair, FixText, LengthDone, WordIn, TextApart, TextEnd;
    var b1 := FixText(b, o, o + 24, segment);
    var b2 := FixText(b1, o + 4, o + 26, segment);
    var b3 := FixPair(b2, o + 8, segment);
    TextIs(b, h, o, o + 24, segment);
    TextIs(b1, h, o + 4, o + 26, segment);
    PairIs(b2, o + 8, segment);
    KeptWord(b, b1, o + 4, o + 12, o + 4);
    KeptWord(b, b1, o + 4, o + 12, o + 6);
    KeptWord(b, b2, o + 8, o + 12, o + 8);
    KeptWord(b, b2, o + 8, o + 12, o + 10);
    KeptWord(b1, b3, o, o + 4, o);
    KeptWord(b1, b3, o, o + 4, o + 2);
    KeptWord(b2, b3, o + 4, o + 8, o + 4);
    KeptWord(b2, b3, o + 4, o + 8, o + 6);
    KeptWord(b1, b3, o + 24, o + 26, o + 24);
    KeptWord(b, b1, o + 26, o + 28, o + 26);
    KeptWord(b2, b3, o + 26, o + 28, o + 26);
    LengthVia(b, b, b1, b3, h, o, o + 24);
    LengthVia(b, b1, b2, b3, h, o + 4, o + 26);
  }

  /** From `b` to `b'` bytes changed in tables only. */
  ghost predicate TablesOnly(b: seq<Byte>, b': seq<Byte>, h: Header) {
    |b'| == |b| && forall k | 0 <= k < |b| && !Tabled(h, k) :: b'[k] == b[k]
  }

  /** A text length stays right when it was set between other changes. */
  lemma LengthVia(b0: seq<Byte>, b: seq<Byte>, b': seq<Byte>, b1: seq<Byte>, h: Header, o: int, len: int)
    requires TablesOnly(b0, b, h) && |b'| == |b| && LengthDone(b, b', h, o, len)
    requires PairIn(b, o) == PairIn(b0, o) && WordIn(b, len) == WordIn(b0, len) && WordIn(b1, len) == WordIn(b', len)
    ensures LengthDone(b0, b1, h, o, len)
  {
    var lo := WordIn(b0, o);
    if PairIn(b0, o) != ABSENT && TextApart(b0, h, lo) {
      forall k | lo <= k <= TextEnd(b0, lo) && k < |b0|
        ensures b[k] == b0[k]
      {
        assert Spare(h, k);
      }
      TextSame(b0, b, lo);
      assert TextApart(b, h, lo);
    }
  }

  lemma WordsAlike(b: seq<Byte>, b': seq<Byte>, from: int, to: int)
    requires Kept(b, b', from, to)
    ensures forall o | from <= o && o + 2 <= to :: WordIn(b', o) == WordIn(b, o)
  {
  }

  /** A record that was fixed between changes outside it, and to tables only before it, is as if fixed at once. */
  lemma RecordVia(b0: seq<Byte>, b: seq<Byte>, b': seq<Byte>, b1: seq<Byte>, h: Header, t: int, o: int, segment: UWord)
    requires TablesOnly(b0, b, h) && RecordDone(b, b', h, t, o, segment)
    requires Kept(b0, b, o, o + Bytes(t)) && Kept(b', b1, o, o + Bytes(t))
    ensures RecordDone(b0, b1, h, t, o, segment)
  {
    hide WordIn, LengthDone, TablesOnly;
    WordsAlike(b0, b, o, o + Bytes(t));
    WordsAlike(b', b1, o, o + Bytes(t));
    if t == TEDS {
      LengthVia(b0, b, b', b1, h, o, o + 24);
      LengthVia(b0, b, b', b1, h, o + 4, o + 26);
    }
  }

  /** Fixing a whole table fixes every record of it and touches nothing else. */
  lemma {:induction false} AllIs(b: seq<Byte>, h: Header, t: int, o: int, n: nat, segment: UWord)
    requires 0 <= o && Place(o, Bytes(t), n) <= |b| && t != OBJECTS
    requires forall k | o <= k < Place(o, Bytes(t), n) :: Tabled(h, k)
    ensures var b' := FixAll(b, t, o, n, segment);
            && Touched(b, b', o, Place(o, Bytes(t), n))
            && forall i | 0 <= i < n :: RecordDone(b, b', h, t, Place(o, Bytes(t), i), segment)
    decreases n
  {
    hide FixRecord, RecordDone, Tabled, Bytes, Place;
    PlaceNext(o, Bytes(t), 0);
    if n > 0 {
      var (b1, b') := (FixRecord(b, t, o, segment), FixAll(b, t, o, n, segment));
      var next := o + Bytes(t);
      PlaceNext(o, Bytes(t), n - 1);
      PlaceNext(next, Bytes(t), 0);
      PlaceOrder(next, Bytes(t), 0, n - 1);
      RecordIs(b, h, t, o, segment);
      AllIs(b1, h, t, next, n - 1, segment);
      RecordVia(b, b, b1, b', h, t, o, segment);
      forall i | 0 < i < n
        ensures RecordDone(b, b', h, t, Place(o, Bytes(t), i), segment)
      {
        PlaceNext(o, Bytes(t), i - 1);
        PlaceOrder(next, Bytes(t), 0, i - 1);
        PlaceNext(next, Bytes(t), i - 1);
        PlaceOrder(next, Bytes(t), i, n - 1);
        RecordVia(b, b1, b', b', h, t, Place(o, Bytes(t), i), segment);
      }
    }
  }
}
