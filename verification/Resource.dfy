/** The per-client resource: a file is checked as a whole, copied and relocated in place; then clients look records up
    by number. */
module Resource {
  import opened Relocation
  import opened ResourceFormat
  import opened WordMath
  import opened Wrappers

  // What a file must be like

  /** An address that is required, or missing, or leaves room for this many bytes. */
  predicate RoomFits(p: Pair, bytes: nat, size: int, required: bool) {
    if p == ABSENT then !required else p.hi == 0 && p.lo + bytes <= size
  }

  /** The address of a text that ends in the image. */
  predicate TextFits(b: seq<Byte>, p: Pair, required: bool) {
    if p == ABSENT then !required else p.hi == 0 && p.lo < |b| && TextEnd(b, p.lo) < |b|
  }

  /** The address of a record of table t. */
  ghost predicate EntryFits(h: Header, t: int, p: Pair) {
    p.hi == 0 && exists i | 0 <= i < TableAt(h, t).count :: p.lo == Record(h, t, i)
  }

  function Signed(w: UWord): int {
    if w < 0x8000 then w else w - 0x1_0000
  }

  /** A missing bitmap, or rows that all lie in the image. */
  predicate BitmapFits(p: Pair, width: int, rows: int, size: int) {
    p == ABSENT || (width >= 0 && rows >= 0 && p.hi == 0 && p.lo <= size && p.lo + width * rows <= size)
  }

  predicate LinkFits(link: UWord, objects: UWord) {
    Signed(link) == -1 || 0 <= Signed(link) < objects
  }

  const USER_BYTES := 8

  /** What the type of an object calls for in its specification. */
  ghost predicate SpecFits(b: seq<Byte>, h: Header, word: UWord, flags: UWord, spec: Pair) {
    var kind := word % 0x100;
    if flags / 0x100 % 2 == 1 then RoomFits(spec, 4, |b|, true)
    else if Boxed(word) then true
    else if kind == G_TEXT || kind == G_BOXTEXT || kind == G_FTEXT || kind == G_FBOXTEXT then EntryFits(h, TEDS, spec)
    else if kind == G_IMAGE then EntryFits(h, BITS, spec)
    else if kind == G_ICON then EntryFits(h, ICONS, spec)
    else if kind == G_BUTTON || kind == G_STRING || kind == G_TITLE then TextFits(b, spec, true)
    else RoomFits(spec, if kind == G_USERDEF then USER_BYTES else 1, |b|, true)
  }

  ghost predicate RecordFit(b: seq<Byte>, h: Header, t: int, o: int) {
    if t == OBJECTS then
      && LinkFits(WordIn(b, o), TableAt(h, OBJECTS).count) && LinkFits(WordIn(b, o + 2), TableAt(h, OBJECTS).count)
      && LinkFits(WordIn(b, o + 4), TableAt(h, OBJECTS).count)
      && SpecFits(b, h, WordIn(b, o + OB_TYPE), WordIn(b, o + OB_FLAGS), PairIn(b, o + OB_SPEC))
    else if t == TEDS then
      TextFits(b, PairIn(b, o), false) && TextFits(b, PairIn(b, o + 4), false) && TextFits(b, PairIn(b, o + 8), false)
    else if t == ICONS then
      var (width, rows) := (Signed(WordIn(b, o + 22)), Signed(WordIn(b, o + 24)));
      && width >= 0 && rows >= 0 && BitmapFits(PairIn(b, o), (width + 7) / 8, rows, |b|)
      && BitmapFits(PairIn(b, o + 4), (width + 7) / 8, rows, |b|) && TextFits(b, PairIn(b, o + 8), false)
    else if t == BITS then BitmapFits(PairIn(b, o), Signed(WordIn(b, o + 4)), Signed(WordIn(b, o + 6)), |b|)
    else if t == STRINGS then TextFits(b, PairIn(b, o), false)
    else if t == IMAGES then RoomFits(PairIn(b, o), 1, |b|, false)
    else EntryFits(h, OBJECTS, PairIn(b, o))
  }

  ghost predicate TableFit(b: seq<Byte>, h: Header, t: int) {
    forall i | 0 <= i < TableAt(h, t).count :: RecordFit(b, h, t, Record(h, t, i))
  }

  /** What a file must be like to be loaded. */
  ghost predicate Accepted(b: seq<Byte>, h: Header) {
    HeaderFits(h) && |b| == h.size && forall t | 0 <= t < TABLES :: TableFit(b, h, t)
  }

  lemma AcceptedTrees(b: seq<Byte>, h: Header)
    requires TableFit(b, h, TREES)
    ensures TreesFit(b, h)
  {
    hide Record, WordIn;
    forall i | 0 <= i < TableAt(h, TREES).count
      ensures TreeFits(b, h, i)
    {
      assert RecordFit(b, h, TREES, Record(h, TREES, i));
      var c :| 0 <= c < TableAt(h, OBJECTS).count && PairIn(b, Record(h, TREES, i)).lo == Record(h, OBJECTS, c);
      assert Refers(b, h, i, c);
    }
  }

  // Looking records up

  const R_TREE := 0
  const R_OBJECT := 1
  const R_TEDINFO := 2
  const R_ICONBLK := 3
  const R_BITBLK := 4
  const R_STRING := 5
  const R_IMAGEDATA := 6
  const R_OBSPEC := 7
  const R_TEPTEXT := 8
  const R_TEPTMPLT := 9
  const R_TEPVALID := 10
  const R_IBPMASK := 11
  const R_IBPDATA := 12
  const R_IBPTEXT := 13
  const R_BIPDATA := 14
  const R_FRSTR := 15
  const R_FRIMG := 16

  /** A field of record `index` of a table. */
  function Slot(h: Header, t: int, field: nat, index: nat, segment: UWord): Option<Pair> {
    if index < TableAt(h, t).count then Some(Pair(Low(Record(h, t, index) + field), segment)) else None
  }

  /** The address record `index` of a table of addresses holds. */
  function Held(b: seq<Byte>, h: Header, t: int, index: nat): Option<Pair> {
    if index >= TableAt(h, t).count || PairIn(b, Low(Record(h, t, index))) == ABSENT then None
    else Some(PairIn(b, Low(Record(h, t, index))))
  }

  /** RSRC_GADDR: the address of a part of a loaded image. */
  function AddressOf(b: seq<Byte>, segment: UWord, kind: int, index: UWord): Option<Pair> {
    var h := HeaderOf(b);
    if segment == 0 then None
    else if kind == R_TREE then Held(b, h, TREES, index)
    else if kind == R_STRING then Held(b, h, STRINGS, index)
    else if kind == R_IMAGEDATA then Held(b, h, IMAGES, index)
    else if kind == R_OBJECT then Slot(h, OBJECTS, 0, index, segment)
    else if kind == R_OBSPEC then Slot(h, OBJECTS, OB_SPEC, index, segment)
    else if kind == R_TEDINFO || kind == R_TEPTEXT then Slot(h, TEDS, 0, index, segment)
    else if kind == R_TEPTMPLT || kind == R_TEPVALID
        then Slot(h, TEDS, if kind == R_TEPTMPLT then 4 else 8, index, segment)
    else if kind == R_ICONBLK || kind == R_IBPMASK then Slot(h, ICONS, 0, index, segment)
    else if kind == R_IBPDATA || kind == R_IBPTEXT
        then Slot(h, ICONS, if kind == R_IBPDATA then 4 else 8, index, segment)
    else if kind == R_BITBLK || kind == R_BIPDATA then Slot(h, BITS, 0, index, segment)
    else if kind == R_FRSTR then Slot(h, STRINGS, 0, index, segment)
    else if kind == R_FRIMG then Slot(h, IMAGES, 0, index, segment)
    else None
  }

  /** In a loaded image every tree number leads to an object of the image, and to the one the file named; numbers behind
      the last tree lead nowhere. */
  lemma TreesLead(b: seq<Byte>, b': seq<Byte>, segment: UWord, m: Metrics, index: UWord)
    requires var h := HeaderOf(b); Accepted(b, h) && Relocated(b, b', h, segment, m) && segment > 0
    ensures var (h, found) := (HeaderOf(b), AddressOf(b', segment, R_TREE, index));
            && HeaderOf(b') == h
            && if index >= TableAt(h, TREES).count then found == None
               else found.Some? && found.value.hi == segment && found.value.lo == WordIn(b, Record(h, TREES, index))
                    && exists c | 0 <= c < TableAt(h, OBJECTS).count :: found.value.lo == Record(h, OBJECTS, c)
  {
    hide HeaderFits, Record, WordIn;
    var h := HeaderOf(b);
    WordsAlike(b, b', 0, HEADER_BYTES);
    assert HeaderOf(b') == h;
    if index < TableAt(h, TREES).count {
      assert TableFit(b, h, TREES);
      assert RecordFit(b, h, TREES, Record(h, TREES, index));
      assert RecordDone(b, b', h, TREES, Record(h, TREES, index), segment);
      var c :| 0 <= c < TableAt(h, OBJECTS).count && WordIn(b, Record(h, TREES, index)) == Record(h, OBJECTS, c);
      RecordFits(h, TREES, index);
      RecordFits(h, OBJECTS, c);
      LowSmall(Record(h, TREES, index));
    }
  }

  /** Free strings and images: a missing one stays missing, any other is where the file had it. */
  lemma TextsLead(b: seq<Byte>, b': seq<Byte>, segment: UWord, m: Metrics, kind: int, index: UWord)
    requires var h := HeaderOf(b); Accepted(b, h) && Relocated(b, b', h, segment, m) && segment > 0
    requires kind == R_STRING || kind == R_IMAGEDATA
    ensures var h := HeaderOf(b);
            var t := if kind == R_STRING then STRINGS else IMAGES;
            AddressOf(b', segment, kind, index)
            == if index >= TableAt(h, t).count || PairIn(b, Record(h, t, index)) == ABSENT then None
               else Some(Pair(WordIn(b, Record(h, t, index)), segment))
  {
    hide HeaderFits, Record, WordIn, TextEnd;
    var h := HeaderOf(b);
    var t := if kind == R_STRING then STRINGS else IMAGES;
    WordsAlike(b, b', 0, HEADER_BYTES);
    assert HeaderOf(b') == h;
    if index < TableAt(h, t).count {
      assert TableFit(b, h, t);
      assert RecordFit(b, h, t, Record(h, t, index));
      assert RecordDone(b, b', h, t, Record(h, t, index), segment);
      RecordFits(h, t, index);
      LowSmall(Record(h, t, index));
    }
  }

  // What the check lets through

  /** An image of one disabled string and one bitmap. The string's text is a single dash: the bitmap's x. */
  function StrayedByte(k: int): Byte {
    match k
    case 2 => 36
    case 8 => 60
    case 20 => 1
    case 28 => 1
    case 34 => 74
    case 42 => G_STRING
    case 46 => 8
    case 48 => 68
    case 68 => DASH
    case _ => if 36 <= k < 42 || 60 <= k < 64 then 0xff else 0
  }

  function Strayed(): (b: seq<Byte>)
    ensures |b| == 74
  {
    seq(74, k => StrayedByte(k))
  }

  lemma StrayedHeader()
    ensures var h := HeaderOf(Strayed());
            && h.size == 74 && h.text == h.data == 0
            && h.tables == [Table(36, 1), Table(0, 0), Table(0, 0), Table(60, 1), Table(0, 0), Table(0, 0), Table(0, 0)]
  {
  }

  lemma StrayedFits()
    ensures HeaderFits(HeaderOf(Strayed()))
  {
    hide HeaderOf;
    StrayedHeader();
  }

  lemma StrayedRecords()
    ensures var (b, h) := (Strayed(), HeaderOf(Strayed())); RecordFit(b, h, OBJECTS, 36) && RecordFit(b, h, BITS, 60)
  {
    hide HeaderOf;
    StrayedHeader();
    StrayedText(Strayed());
  }

  lemma StrayedText(b: seq<Byte>)
    requires |b| > 69 && b[68] == DASH && b[69] == 0
    ensures TextEnd(b, 68) == 69
  {
    assert TextEnd(b, 69) == 69;
  }

  lemma StrayedAccepted()
    ensures Accepted(Strayed(), HeaderOf(Strayed()))
  {
    hide HeaderOf, HeaderFits, RecordFit, Strayed;
    StrayedHeader();
    StrayedFits();
    StrayedRecords();
  }

  /** All passes but the last find nothing to relocate. */
  lemma StrayedWaits(segment: UWord, m: Metrics)
    ensures Passed(Strayed(), HeaderOf(Strayed()), 6, segment, m) == Strayed()
  {
    hide HeaderOf, Strayed, Place;
    var (b, h) := (Strayed(), HeaderOf(Strayed()));
    StrayedHeader();
    StrayedBitmap();
    PassedNext(b, h, 0, segment, m);
    PassedNext(b, h, 1, segment, m);
    PassedNext(b, h, 2, segment, m);
    PassedNext(b, h, 3, segment, m);
    PassedNext(b, h, 4, segment, m);
    PassedNext(b, h, 5, segment, m);
  }

  lemma StrayedBitmap()
    ensures PairIn(Strayed(), 60) == ABSENT && PairIn(Strayed(), 48) == Pair(68, 0) && Ruled(Strayed(), 36)
    ensures Strayed()[68] == DASH && Strayed()[69] == 0
  {
  }

  /** The last one draws the rule over the bitmap's x. */
  lemma StrayedDraws(b: seq<Byte>, h: Header, segment: UWord, m: Metrics)
    requires |b| == 74 && TableAt(h, OBJECTS) == Table(36, 1)
    requires PairIn(b, 48) == Pair(68, 0) && Ruled(b, 36) && b[68] == DASH && b[69] == 0
    ensures FixObjects(b, h, 0, segment, m)[68] == RULE
  {
    hide FixFields, WordIn, Pixels, PositionsDone;
    var b1 := FixFields(b, 36, segment, m);
    assert Record(h, OBJECTS, 0) == 36;
    FieldsAre(b, 36, segment, m);
    KeptWord(b, b1, 36, 48, 36 + OB_TYPE);
    KeptWord(b, b1, 36, 48, 36 + OB_STATE);
    StrayedText(b1);
    assert FixObjects(b, h, 0, segment, m) == FixObjects(Divide(b1, 36, segment), h, 1, segment, m);
  }

  /** The check lets an image through whose relocation overwrites a field of another table. */
  lemma StrayedIsLoaded(segment: UWord, m: Metrics)
    ensures var (b, h) := (Strayed(), HeaderOf(Strayed()));
            Accepted(b, h) && !Relocated(b, Passed(b, h, PASSES, segment, m), h, segment, m)
  {
    hide Strayed, HeaderOf, Accepted, Passed, FixObjects, FixAll, FixTrees, PairDone;
    var (b, h) := (Strayed(), HeaderOf(Strayed()));
    StrayedAccepted();
    StrayedHeader();
    StrayedWaits(segment, m);
    StrayedBitmap();
    PassedNext(b, h, 6, segment, m);
    StrayedDraws(b, h, segment, m);
    assert Record(h, BITS, 0) == 60;
    assert !RecordDone(b, Passed(b, h, PASSES, segment, m), h, BITS, Record(h, BITS, 0), segment);
  }

  // Every other part of an image

  /** The number leads to this offset of the image, when there is such a record, and else nowhere. */
  ghost predicate Leads(b: seq<Byte>, segment: UWord, kind: int, index: UWord, lo: int, there: bool) {
    match AddressOf(b, segment, kind, index)
    case Some(p) => there && p.lo == lo && p.hi == segment && lo + 4 <= |b|
    case None => !there
  }

  lemma SlotLeads(h: Header, t: int, field: nat, index: nat, segment: UWord)
    requires HeaderFits(h) && 0 <= t < TABLES && field + 4 <= Bytes(t)
    ensures match Slot(h, t, field, index, segment)
            case Some(p) => index < TableAt(h, t).count && p.lo == TableAt(h, t).start + Bytes(t) * index + field
                            && p.hi == segment && p.lo + 4 <= h.size
            case None => index >= TableAt(h, t).count
  {
    hide HeaderFits;
    if index < TableAt(h, t).count {
      RecordFits(h, t, index);
      LowSmall(Record(h, t, index) + field);
    }
  }

  /** The numbers of records, and of the addresses in them, lead to the field the format puts them in. */
  lemma PartsLead(b: seq<Byte>, b': seq<Byte>, segment: UWord, m: Metrics, index: UWord)
    requires var h := HeaderOf(b); Accepted(b, h) && Relocated(b, b', h, segment, m) && segment > 0
    ensures var ts := HeaderOf(b).tables;
            var (objects, teds, icons, bits, strings, images) := (ts[0], ts[1], ts[2], ts[3], ts[4], ts[5]);
            && Leads(b', segment, 1, index, objects.start + 24 * index, index < objects.count)
            && Leads(b', segment, 7, index, objects.start + 24 * index + 12, index < objects.count)
            && Leads(b', segment, 2, index, teds.start + 28 * index, index < teds.count)
            && Leads(b', segment, 8, index, teds.start + 28 * index, index < teds.count)
            && Leads(b', segment, 9, index, teds.start + 28 * index + 4, index < teds.count)
            && Leads(b', segment, 10, index, teds.start + 28 * index + 8, index < teds.count)
            && Leads(b', segment, 3, index, icons.start + 34 * index, index < icons.count)
            && Leads(b', segment, 11, index, icons.start + 34 * index, index < icons.count)
            && Leads(b', segment, 12, index, icons.start + 34 * index + 4, index < icons.count)
            && Leads(b', segment, 13, index, icons.start + 34 * index + 8, index < icons.count)
            && Leads(b', segment, 4, index, bits.start + 14 * index, index < bits.count)
            && Leads(b', segment, 14, index, bits.start + 14 * index, index < bits.count)
            && Leads(b', segment, 15, index, strings.start + 4 * index, index < strings.count)
            && Leads(b', segment, 16, index, images.start + 4 * index, index < images.count)
            && forall kind | kind < 0 || kind > 16 :: AddressOf(b', segment, kind, index) == None
  {
    hide HeaderFits, Slot, WordIn, Held;
    var h := HeaderOf(b);
    WordsAlike(b, b', 0, HEADER_BYTES);
    assert HeaderOf(b') == h;
    SlotLeads(h, OBJECTS, 0, index, segment);
    SlotLeads(h, OBJECTS, OB_SPEC, index, segment);
    SlotLeads(h, TEDS, 0, index, segment);
    SlotLeads(h, TEDS, 4, index, segment);
    SlotLeads(h, TEDS, 8, index, segment);
    SlotLeads(h, ICONS, 0, index, segment);
    SlotLeads(h, ICONS, 4, index, segment);
    SlotLeads(h, ICONS, 8, index, segment);
    SlotLeads(h, BITS, 0, index, segment);
    SlotLeads(h, STRINGS, 0, index, segment);
    SlotLeads(h, IMAGES, 0, index, segment);
  }
}
