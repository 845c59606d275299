/** What a loaded resource holds, field by field, in the numbers of the format. */
module LoadedFields {
  import opened Relocation
  import opened Resource
  import opened ResourceFormat
  import opened WordMath

  /** The high byte of a position, in pixels: up to 128 it counts forward, above backward. */
  function Shift(position: UWord): int {
    if position / 256 <= 128 then position / 256 else position / 256 - 256
  }

  lemma LowPlus(a: int, d: int)
    ensures Low(Low(a) as int + d) == (a + d) % 65536
  {
  }

  lemma PixelsAre(position: UWord, m: Metrics)
    ensures var (n, d) := (position % 256, Shift(position));
            && Pixels(position, 0, m) == (n * m.characterWidth + d) % 65536
            && Pixels(position, 1, m) == (n * m.characterHeight + d) % 65536
            && Pixels(position, 2, m) == ((if n == 80 then m.screenWidth else n * m.characterWidth) + d) % 65536
            && Pixels(position, 3, m) == ((if n == 25 then m.screenHeight else n * m.characterHeight) + d) % 65536
  {
    hide Low;
    var (n, d) := (position % 256, Shift(position));
    LowPlus(n * m.characterWidth, d);
    LowPlus(n * m.characterHeight, d);
    LowPlus(m.screenWidth, d);
    LowPlus(m.screenHeight, d);
    LowSmall(m.screenWidth);
    LowSmall(m.screenHeight);
  }

  /** Object c: links, type and flags are as in the file; an outlined box at the root of a tree is shadowed if the
      metrics ask for it; what is not a box has an address in the image; and x, y, width and height are in pixels, a
      column as wide and a row as high as a character, 80 columns as wide and 25 rows as high as the screen. */
  lemma ObjectFields(b: seq<Byte>, b': seq<Byte>, h: Header, c: int, segment: UWord, m: Metrics)
    requires Relocated(b, b', h, segment, m) && 0 <= c < TableAt(h, OBJECTS).count
    ensures var o := TableAt(h, 0).start + 24 * c;
            var (state, box) := (WordIn(b, o + 10), WordIn(b, o + 6) % 256 in {20, 25, 27});
            && (forall k | 0 <= k < 5 :: WordIn(b', o + 2 * k) == WordIn(b, o + 2 * k))
            && WordIn(b', o + 10) == (if m.outlined && Rooted(b, h, 0, c) && state == 16
                                      && WordIn(b, o + 6) == 20 then 32
                                      else state)
            && WordIn(b', o + 12) == WordIn(b, o + 12)
            && WordIn(b', o + 14) == (if box || (WordIn(b, o + 12) == 0xffff && WordIn(b, o + 14) == 0xffff)
                                      then WordIn(b, o + 14) else segment)
            && PixelFields(b, b', o, m)
  {
    hide WordIn, Pixels, Rooted, SpareDrawn, RecordDone;
    var o := TableAt(h, 0).start + 24 * c;
    assert Record(h, OBJECTS, c) == o;
    assert ObjectRelocated(b, b', h, c, segment, m);
    WordsAlike(b, b', o, o + OB_STATE);
    if Boxed(WordIn(b, o + OB_TYPE)) {
      WordsAlike(b, b', o + OB_SPEC, o + OB_X);
    }
    FieldPlaces(b, b', o, m);
  }

  ghost predicate PixelFields(b: seq<Byte>, b': seq<Byte>, o: int, m: Metrics) {
    var (x, y, w, h) := (WordIn(b, o + 16), WordIn(b, o + 18), WordIn(b, o + 20), WordIn(b, o + 22));
    && WordIn(b', o + 16) == (x % 256 * m.characterWidth + Shift(x)) % 65536
    && WordIn(b', o + 18) == (y % 256 * m.characterHeight + Shift(y)) % 65536
    && WordIn(b', o + 20) == ((if w % 256 == 80 then m.screenWidth else w % 256 * m.characterWidth) + Shift(w)) % 65536
    && WordIn(b', o + 22) == ((if h % 256 == 25 then m.screenHeight else h % 256 * m.characterHeight)
                              + Shift(h)) % 65536
  }

  lemma FieldPlaces(b: seq<Byte>, b': seq<Byte>, o: int, m: Metrics)
    requires PositionsDone(b, b', o, 0, m)
    ensures PixelFields(b, b', o, m)
  {
    hide WordIn, Pixels, Low;
    forall k | 0 <= k < 4
      ensures WordIn(b', o + 16 + 2 * k) == Pixels(WordIn(b, o + 16 + 2 * k), k, m)
    {
      assert o + OB_X + 2 * k == o + 16 + 2 * k;
    }
    assert WordIn(b', o + 16 + 2 * 0) == Pixels(WordIn(b, o + 16 + 2 * 0), 0, m);
    assert WordIn(b', o + 16 + 2 * 1) == Pixels(WordIn(b, o + 16 + 2 * 1), 1, m);
    assert WordIn(b', o + 16 + 2 * 2) == Pixels(WordIn(b, o + 16 + 2 * 2), 2, m);
    assert WordIn(b', o + 16 + 2 * 3) == Pixels(WordIn(b, o + 16 + 2 * 3), 3, m);
    PixelsAre(WordIn(b, o + 16), m);
    PixelsAre(WordIn(b, o + 18), m);
    PixelsAre(WordIn(b, o + 20), m);
    PixelsAre(WordIn(b, o + 22), m);
  }

  /** A divider: every byte of the text of a disabled string between dashes is now 0x13, unless an earlier disabled
      string shares its text. */
  lemma DividerBytes(b: seq<Byte>, b': seq<Byte>, h: Header, c: int, segment: UWord, m: Metrics, k: int)
    requires Relocated(b, b', h, segment, m) && 0 <= c < TableAt(h, OBJECTS).count && Alone(b, h, 0, c)
    requires var o := TableAt(h, 0).start + 24 * c;
             var (lo, end) := (WordIn(b, o + 12), TextEnd(b, WordIn(b, o + 12)));
             && WordIn(b, o + 6) % 256 == 28 && WordIn(b, o + 10) / 8 % 2 == 1
             && lo < end < |b| && b[lo] == 0x2d && b[end - 1] == 0x2d && lo <= k < end
    ensures 0 <= k < |b'| && b'[k] == 0x13
  {
    hide WordIn, TextEnd, RecordDone, ObjectRelocated, Alone;
    assert Record(h, OBJECTS, c) == TableAt(h, 0).start + 24 * c;
    assert Divider(b, h, c, k);
  }

  /** The bytes of one record of each table, in the order objects, text records, icons, bitmaps, strings, images,
      trees. */
  const SIZES := [24, 28, 34, 14, 4, 4, 4]

  function TableEnd(h: Header, t: int): int
    requires 0 <= t < 7
  {
    TableAt(h, t).start + TableAt(h, t).count * SIZES[t]
  }

  /** The table lies within the image, and unless it is empty behind the header and on a word boundary. */
  predicate Lies(h: Header, t: int)
    requires 0 <= t < 7
  {
    && TableAt(h, t).start <= h.size && TableEnd(h, t) <= h.size
    && (TableAt(h, t).count == 0 || (TableAt(h, t).start >= 36 && TableAt(h, t).start % 2 == 0))
  }

  /** One table ends before the other starts, or one of them is empty. */
  predicate Separate(h: Header, s: int, t: int)
    requires 0 <= s < 7 && 0 <= t < 7
  {
    || TableAt(h, s).count == 0 || TableAt(h, t).count == 0
    || TableEnd(h, s) <= TableAt(h, t).start || TableEnd(h, t) <= TableAt(h, s).start
  }

  lemma EndIs(h: Header, t: int)
    requires 0 <= t < 7
    ensures TableEnd(h, t) == End(h, t) && SIZES[t] == Bytes(t)
  {
  }

  /** Exactly when a header is accepted, in the sizes of the format. */
  lemma HeaderMeans(h: Header)
    ensures HeaderFits(h) <==>
            && |h.tables| == 7 && h.size >= 36 && h.text <= h.size && h.data <= h.size
            && (h.tables[6].count > 0 ==> h.tables[0].count > 0)
            && (forall t | 0 <= t < 7 :: Lies(h, t)) && forall s, t | 0 <= s < t < 7 :: Separate(h, s, t)
  {
    hide Place, TableEnd, Record, Bytes, End;
    forall t | 0 <= t < 7
      ensures Lies(h, t) <==> TableFits(h, t)
    {
      EndIs(h, t);
    }
    forall s, t | 0 <= s < t < 7
      ensures Separate(h, s, t) <==> !Meet(h, s, t)
    {
      EndIs(h, s);
      EndIs(h, t);
    }
  }

  /** A link of an object: to none, or to an object of the image. */
  predicate LinkInside(link: UWord, objects: int) {
    link == 0xffff || link < objects
  }

  /** An address of a file: missing, or of a byte of the image. */
  predicate AddressInside(p: Pair, size: int) {
    p == Pair(0xffff, 0xffff) || (p.hi == 0 && p.lo < size)
  }

  /** In an accepted file the links and addresses of every object stay inside the image, the addresses of all texts and
      of free images too, and every tree starts at an object. */
  lemma AcceptedInside(b: seq<Byte>, h: Header, t: int, i: int)
    requires Accepted(b, h) && 0 <= t < 7 && 0 <= i < TableAt(h, t).count
    ensures var o := TableAt(h, t).start + SIZES[t] * i;
            && (t == 0 ==>
                  && (forall k | 0 <= k < 3 :: LinkInside(WordIn(b, o + 2 * k), TableAt(h, 0).count))
                  && (WordIn(b, o + 6) % 256 in {20, 25, 27} || AddressInside(PairIn(b, o + 12), h.size)))
            && (t == 1 ==> AddressInside(PairIn(b, o), h.size) && AddressInside(PairIn(b, o + 4), h.size)
                           && AddressInside(PairIn(b, o + 8), h.size))
            && (t == 2 ==> AddressInside(PairIn(b, o + 8), h.size))
            && (t == 4 || t == 5 ==> AddressInside(PairIn(b, o), h.size))
            && (t == 6 ==> AddressInside(PairIn(b, o), h.size) && PairIn(b, o).hi == 0
                           && exists c | 0 <= c < TableAt(h, 0).count ::
                                PairIn(b, o).lo == TableAt(h, 0).start + 24 * c)
  {
    hide HeaderFits, WordIn, TextEnd, Record;
    var o := Record(h, t, i);
    PlaceOf(h, t, i);
    assert TableFit(b, h, t);
    assert RecordFit(b, h, t, o);
    if t == 0 && !Boxed(WordIn(b, o + OB_TYPE)) {
      SpecInside(b, h, WordIn(b, o + OB_TYPE), WordIn(b, o + OB_FLAGS), PairIn(b, o + OB_SPEC));
    }
    if t == 6 {
      EntryInside(h, OBJECTS, PairIn(b, o));
      var c :| 0 <= c < TableAt(h, 0).count && PairIn(b, o).lo == Record(h, 0, c);
      PlaceOf(h, 0, c);
    }
  }

  lemma PlaceOf(h: Header, t: int, i: int)
    requires 0 <= t < 7
    ensures Record(h, t, i) == TableAt(h, t).start + SIZES[t] * i
  {
  }

  lemma EntryInside(h: Header, t: int, p: Pair)
    requires HeaderFits(h) && 0 <= t < TABLES && EntryFits(h, t, p)
    ensures p.hi == 0 && p.lo < h.size
  {
    hide HeaderFits, Record;
    var i :| 0 <= i < TableAt(h, t).count && p.lo == Record(h, t, i);
    RecordFits(h, t, i);
  }

  lemma SpecInside(b: seq<Byte>, h: Header, word: UWord, flags: UWord, spec: Pair)
    requires HeaderFits(h) && |b| == h.size && SpecFits(b, h, word, flags, spec) && !Boxed(word)
    ensures AddressInside(spec, h.size)
  {
    hide HeaderFits, EntryFits, TextEnd;
    if EntryFits(h, TEDS, spec) {
      EntryInside(h, TEDS, spec);
    }
    if EntryFits(h, BITS, spec) {
      EntryInside(h, BITS, spec);
    }
    if EntryFits(h, ICONS, spec) {
      EntryInside(h, ICONS, spec);
    }
  }

  // The header's words in the order of the file

  function Encoded(words: seq<UWord>): (b: seq<Byte>)
    ensures |b| == 2 * |words|
  {
    seq(2 * |words|, k requires 0 <= k < 2 * |words| =>
      if k % 2 == 0 then words[k / 2] % 256 else words[k / 2] / 256)
  }

  lemma EncodedWord(words: seq<UWord>, rest: seq<Byte>, i: nat)
    requires i < |words|
    ensures WordIn(Encoded(words) + rest, 2 * i) == words[i]
  {
    var b := Encoded(words) + rest;
    assert b[2 * i] == words[i] % 256 && b[2 * i + 1] == words[i] / 256;
  }

  /** The version, the places of objects, text records, icons, bitmaps, strings, text, image data, images and trees, the
      numbers of objects, trees, text records, icons, bitmaps, strings and images, and the size. */
  lemma HeaderOrder(words: seq<UWord>, rest: seq<Byte>)
    requires |words| == 18
    ensures HeaderOf(Encoded(words) + rest)
         == Header([Table(words[1], words[10]), Table(words[2], words[12]), Table(words[3], words[13]),
                    Table(words[4], words[14]), Table(words[5], words[15]), Table(words[8], words[16]),
                    Table(words[9], words[11])],
                   words[6], words[7], words[17])
  {
    hide Encoded, WordIn;
    forall i: nat | i < 18
      ensures WordIn(Encoded(words) + rest, 2 * i) == words[i]
    {
      EncodedWord(words, rest, i);
    }
    var b := Encoded(words) + rest;
    assert WordIn(b, 2 * 1) == words[1] && WordIn(b, 2 * 2) == words[2] && WordIn(b, 2 * 3) == words[3];
    assert WordIn(b, 2 * 4) == words[4] && WordIn(b, 2 * 5) == words[5] && WordIn(b, 2 * 6) == words[6];
    assert WordIn(b, 2 * 7) == words[7] && WordIn(b, 2 * 8) == words[8] && WordIn(b, 2 * 9) == words[9];
    assert WordIn(b, 2 * 10) == words[10] && WordIn(b, 2 * 11) == words[11] && WordIn(b, 2 * 12) == words[12];
    assert WordIn(b, 2 * 13) == words[13] && WordIn(b, 2 * 14) == words[14] && WordIn(b, 2 * 15) == words[15];
    assert WordIn(b, 2 * 16) == words[16] && WordIn(b, 2 * 17) == words[17];
  }

  // What the check asks of an object

  /** The address of record k of table t. */
  ghost predicate OfRecord(h: Header, t: int, p: Pair)
    requires 0 <= t < 7
  {
    p.hi == 0 && exists k | 0 <= k < TableAt(h, t).count :: p.lo == RecordAt(h, t, k)
  }

  function RecordAt(h: Header, t: int, k: int): int
    requires 0 <= t < 7
  {
    TableAt(h, t).start + SIZES[t] * k
  }

  /** The address of a text that ends within the image. */
  ghost predicate OfText(b: seq<Byte>, p: Pair) {
    p.hi == 0 && p.lo < |b| && exists k | p.lo <= k < |b| :: b[k] == 0
  }

  /** The address leaves room for this many bytes. */
  predicate OfRoom(p: Pair, bytes: int, size: int) {
    p.hi == 0 && p.lo + bytes <= size
  }

  lemma EntryIs(h: Header, t: int, p: Pair)
    requires 0 <= t < 7
    ensures EntryFits(h, t, p) <==> OfRecord(h, t, p)
  {
    hide Record;
    forall k
      ensures Record(h, t, k) == RecordAt(h, t, k)
    {
      PlaceOf(h, t, k);
    }
    if OfRecord(h, t, p) {
      var k :| 0 <= k < TableAt(h, t).count && p.lo == RecordAt(h, t, k);
      assert p.lo == Record(h, t, k);
    }
  }

  lemma TextIsEnded(b: seq<Byte>, p: Pair)
    ensures |b| <= 0xffff ==> (TextFits(b, p, true) <==> OfText(b, p))
    ensures |b| <= 0xffff ==> (TextFits(b, p, false) <==> p == Pair(0xffff, 0xffff) || OfText(b, p))
  {
    if p.hi == 0 && p.lo < |b| && TextEnd(b, p.lo) < |b| {
      assert b[TextEnd(b, p.lo)] == 0;
    }
  }

  /** A specification is sound when an indirect one leads to four bytes, that of a box is anything, that of a text
      object to a text record, that of an image to a bitmap, that of an icon to an icon, that of a button, string or
      title to a text, that of a user's object to eight bytes, and any other to a byte of the image. */
  lemma SpecMeans(b: seq<Byte>, h: Header, word: UWord, flags: UWord, spec: Pair)
    requires |b| <= 0xffff
    ensures var kind := word % 256;
            SpecFits(b, h, word, flags, spec) <==>
            if flags / 256 % 2 == 1 then OfRoom(spec, 4, |b|)
            else if kind in {20, 25, 27} then true
            else if kind in {21, 22, 29, 30} then OfRecord(h, 1, spec)
            else if kind == 23 then OfRecord(h, 3, spec)
            else if kind == 31 then OfRecord(h, 2, spec)
            else if kind in {26, 28, 32} then OfText(b, spec)
            else if kind == 24 then OfRoom(spec, 8, |b|)
            else OfRoom(spec, 1, |b|)
  {
    hide EntryFits, OfRecord, TextFits, OfText;
    EntryIs(h, 1, spec);
    EntryIs(h, 2, spec);
    EntryIs(h, 3, spec);
    TextIsEnded(b, spec);
  }

  /** A bitmap is missing, or its rows of so many bytes end within the image. */
  predicate OfRows(p: Pair, width: int, rows: int, size: int) {
    p == Pair(0xffff, 0xffff) || (p.hi == 0 && width >= 0 && rows >= 0 && p.lo <= size && p.lo + rows * width <= size)
  }

  /** A missing address, or that of a text. */
  ghost predicate OfTextIfAny(b: seq<Byte>, p: Pair) {
    p == Pair(0xffff, 0xffff) || OfText(b, p)
  }

  /** What the check asks of the records of all other tables. Icons have whole bytes for every eight pixels of a row. */
  lemma RecordMeans(b: seq<Byte>, h: Header, o: int)
    requires |b| <= 0xffff
    ensures RecordFit(b, h, 1, o) <==>
            OfTextIfAny(b, PairIn(b, o)) && OfTextIfAny(b, PairIn(b, o + 4)) && OfTextIfAny(b, PairIn(b, o + 8))
    ensures var (w, r) := (WordIn(b, o + 22), WordIn(b, o + 24));
            RecordFit(b, h, 2, o) <==>
            && w < 0x8000 && r < 0x8000 && OfTextIfAny(b, PairIn(b, o + 8))
            && OfRows(PairIn(b, o), (w + 7) / 8, r, |b|) && OfRows(PairIn(b, o + 4), (w + 7) / 8, r, |b|)
    ensures var (w, r) := (Signed(WordIn(b, o + 4)), Signed(WordIn(b, o + 6)));
            RecordFit(b, h, 3, o) <==> OfRows(PairIn(b, o), w, r, |b|)
    ensures RecordFit(b, h, 4, o) <==> OfTextIfAny(b, PairIn(b, o))
    ensures RecordFit(b, h, 5, o) <==> PairIn(b, o) == Pair(0xffff, 0xffff) || OfRoom(PairIn(b, o), 1, |b|)
    ensures RecordFit(b, h, 6, o) <==> OfRecord(h, 0, PairIn(b, o))
  {
    hide WordIn, OfText, TextFits, EntryFits, OfRecord;
    EntryIs(h, 0, PairIn(b, o));
    TextIsEnded(b, PairIn(b, o));
    TextIsEnded(b, PairIn(b, o + 4));
    TextIsEnded(b, PairIn(b, o + 8));
  }
}
