/** Loading a resource: the file is read and checked before the first byte changes, then relocated where it lies. */
module Loader {
  import opened Relocation
  import opened Resource
  import opened ResourceFormat
  import opened WordMath
  import opened Wrappers

  /** How far a table reaches, and whether it has any records. */
  datatype Span = Span(start: UWord, end: UWord, present: bool)

  const NOTHING := Metrics(0, 0, 0, 0, false)

  /** Adds records up to the end of a table, watching the end of the image. */
  method MakeSpan(table: Table, bytes: nat, limit: UWord) returns (ok: bool, span: Span)
    requires 4 <= bytes <= 34
    ensures ok <==> && table.start <= limit && Place(table.start, bytes, table.count) <= limit
                    && (table.count > 0 ==> table.start >= HEADER_BYTES && table.start % 2 == 0)
    ensures ok ==> span == Span(table.start, Place(table.start, bytes, table.count), table.count > 0)
  {
    PlaceOrder(table.start, bytes, 0, table.count);
    PlaceNext(table.start, bytes, 0);
    span := Span(table.start, table.start, table.count > 0);
    if table.start > limit || (table.count > 0 && (table.start < HEADER_BYTES || table.start % 2 == 1)) {
      return false, span;
    }
    var left := table.count;
    while left > 0
      invariant 0 <= left <= table.count && table.start <= limit && span.end <= limit
      invariant span.start == table.start && span.present == (table.count > 0)
      invariant span.end == Place(table.start, bytes, table.count - left)
    {
      hide Place;
      PlaceNext(table.start, bytes, table.count - left);
      if bytes > limit - span.end {
        PlaceOrder(table.start, bytes, table.count - left + 1, table.count);
        return false, span;
      }
      span := span.(end := span.end + bytes);
      left := left - 1;
    }
    ok := true;
  }

  predicate Overlap(left: Span, right: Span) {
    left.present && right.present && left.start < right.end && right.start < left.end
  }

  /** Everything the header says about tables holds water. */
  method ValidateHeader(h: Header) returns (ok: bool)
    requires |h.tables| == TABLES
    ensures ok <==> HeaderFits(h)
  {
    if h.size < HEADER_BYTES || h.text > h.size || h.data > h.size
       || (h.tables[TREES].count > 0 && h.tables[OBJECTS].count == 0) {
      return false;
    }
    var spans: seq<Span> := [];
    while |spans| < TABLES
      invariant |spans| <= TABLES && forall t | 0 <= t < |spans| :: TableFits(h, t) && SpanIs(h, t, spans[t])
    {
      var t := |spans|;
      var fits, span := MakeSpan(h.tables[t], Bytes(t), h.size);
      if !fits {
        assert !TableFits(h, t);
        return false;
      }
      spans := spans + [span];
    }
    var left := 0;
    while left < TABLES
      invariant 0 <= left <= TABLES
      invariant forall s, t | 0 <= s < left && s < t < TABLES :: !Meet(h, s, t)
    {
      var right := left + 1;
      while right < TABLES
        invariant left < right <= TABLES
        invariant forall t | left < t < right :: !Meet(h, left, t)
      {
        if Overlap(spans[left], spans[right]) {
          assert Meet(h, left, right);
          return false;
        }
        right := right + 1;
      }
      left := left + 1;
    }
    ok := true;
  }

  ghost predicate SpanIs(h: Header, t: int, span: Span) {
    span.start == TableAt(h, t).start && span.end == End(h, t) && span.present == (TableAt(h, t).count > 0)
  }

  class Loaded {
    var image: array<Byte>
    var segment: UWord
    var metrics: Metrics
    var loaded: bool

    /** Between calls there is an image exactly when there is a segment, and it is the loaded one. */
    ghost predicate Valid()
      reads this
    {
      (image.Length > 0 <==> loaded) && (loaded <==> segment > 0)
    }

    constructor ()
      ensures Valid() && !loaded
    {
      image := new Byte[0];
      segment, metrics, loaded := 0, NOTHING, false;
    }

    function Word(o: int): UWord
      reads this, image
      ensures Word(o) == WordIn(image[..], o)
    {
      if 0 <= o && o + 1 < image.Length then image[o] as int + 0x100 * image[o + 1] as int else 0
    }

    function PairAt(o: int): Pair
      reads this, image
      ensures PairAt(o) == PairIn(image[..], o)
    {
      Pair(Word(o), Word(o + 2))
    }

    // Checking

    method ValidateText(p: Pair, required: bool) returns (ok: bool)
      requires image.Length <= 0xffff
      ensures ok == TextFits(image[..], p, required)
    {
      if p == ABSENT {
        return !required;
      }
      if p.hi != 0 || p.lo >= image.Length {
        return false;
      }
      var end := TextLength(p.lo);
      ok := end.Some?;
    }

    /** The length of the text at `o`, if it ends in the image. */
    method TextLength(o: UWord) returns (length: Option<UWord>)
      requires image.Length <= 0xffff
      ensures length == if TextEnd(image[..], o) < image.Length then Some(TextEnd(image[..], o) - o) else None
    {
      var at, count := o, 0;
      while at < image.Length
        invariant o <= at && TextEnd(image[..], o) == TextEnd(image[..], at) && count == at - o
        invariant at <= image.Length || at == o
      {
        if image[at] == 0 {
          return Some(count);
        }
        at, count := at + 1, count + 1;
      }
      length := None;
    }

    /** Looks for the address among the records of a table. */
    method InTable(h: Header, t: int, p: Pair) returns (ok: bool)
      requires HeaderFits(h) && 0 <= t < TABLES
      ensures ok == EntryFits(h, t, p)
    {
      hide Place;
      if p.hi != 0 {
        return false;
      }
      assert TableFits(h, t);
      PlaceNext(TableAt(h, t).start, Bytes(t), 0);
      var table, records := h.tables[t].start, h.tables[t].count;
      while records > 0
        invariant 0 <= records <= TableAt(h, t).count && table == Record(h, t, TableAt(h, t).count - records)
        invariant forall i | 0 <= i < TableAt(h, t).count - records :: p.lo != Record(h, t, i)
      {
        if p.lo == table {
          return true;
        }
        PlaceNext(TableAt(h, t).start, Bytes(t), TableAt(h, t).count - records);
        RecordFits(h, t, TableAt(h, t).count - records);
        table, records := table + Bytes(t), records - 1;
      }
      ok := false;
    }

    /** Goes through a bitmap row by row. */
    method ValidateBitmap(p: Pair, width: int, rows: int) returns (ok: bool)
      requires image.Length <= 0xffff && width < 0x8000 && rows < 0x8000
      ensures ok == BitmapFits(p, width, rows, image.Length)
    {
      if p == ABSENT {
        return true;
      }
      if width < 0 || rows < 0 || p.hi != 0 || p.lo as int + (if width > 0 && rows > 0 then 1 else 0) > image.Length {
        RowsRoom(width, rows);
        return false;
      }
      var offset: int, left := p.lo, rows;
      while left > 0
        invariant 0 <= left <= rows && offset == Place(p.lo, width, rows - left) <= image.Length
      {
        hide Place;
        PlaceNext(p.lo, width, rows - left);
        if offset > image.Length || width > image.Length - offset {
          PlaceOrder(p.lo, width, rows - left + 1, rows);
          PlaceRows(p.lo, width, rows);
          return false;
        }
        offset, left := offset + width, left - 1;
      }
      ok := true;
    }

    lemma RowsRoom(width: int, rows: int)
      ensures width > 0 && rows > 0 ==> width * rows > 0
    {
    }

    lemma PlaceRows(start: int, width: int, rows: int)
      ensures Place(start, width, rows) == start + width * rows
    {
    }

    method ValidateSpec(h: Header, word: UWord, flags: UWord, spec: Pair) returns (ok: bool)
      requires HeaderFits(h) && image.Length == h.size
      ensures ok == SpecFits(image[..], h, word, flags, spec)
    {
      var kind := word % 0x100;
      if flags / 0x100 % 2 == 1 {
        ok := RoomFits(spec, 4, image.Length, true);
      } else if Boxed(word) {
        ok := true;
      } else if kind == G_TEXT || kind == G_BOXTEXT || kind == G_FTEXT || kind == G_FBOXTEXT {
        ok := InTable(h, TEDS, spec);
      } else if kind == G_IMAGE {
        ok := InTable(h, BITS, spec);
      } else if kind == G_ICON {
        ok := InTable(h, ICONS, spec);
      } else if kind == G_BUTTON || kind == G_STRING || kind == G_TITLE {
        ok := ValidateText(spec, true);
      } else if kind == G_USERDEF {
        ok := RoomFits(spec, USER_BYTES, image.Length, true);
      } else {
        ok := RoomFits(spec, 1, image.Length, true);
      }
    }

    method ValidateIcon(o: int, ghost h: Header) returns (ok: bool)
      requires image.Length <= 0xffff
      ensures ok == RecordFit(image[..], h, ICONS, o)
    {
      hide BitmapFits, TextFits, WordIn, RecordFit;
      IconFit(h, o);
      var width, rows := Signed(Word(o + 22)), Signed(Word(o + 24));
      if width < 0 || rows < 0 {
        return false;
      }
      var pixels, row := width, 0;
      while pixels >= 8
        invariant 0 <= pixels && width == pixels + 8 * row && 0 <= row
      {
        pixels, row := pixels - 8, row + 1;
      }
      if pixels > 0 {
        row := row + 1;
      }
      ok := ValidateBitmap(PairAt(o), row, rows);
      if ok {
        ok := ValidateBitmap(PairAt(o + 4), row, rows);
        if ok {
          ok := ValidateText(PairAt(o + 8), false);
        }
      }
    }

    lemma IconFit(h: Header, o: int)
      ensures var (width, rows) := (Signed(Word(o + 22)), Signed(Word(o + 24)));
              RecordFit(image[..], h, ICONS, o) ==
              (&& width >= 0 && rows >= 0 && BitmapFits(PairAt(o), (width + 7) / 8, rows, image.Length)
               && BitmapFits(PairAt(o + 4), (width + 7) / 8, rows, image.Length)
                  && TextFits(image[..], PairAt(o + 8), false))
    {
      hide BitmapFits, TextFits;
    }

    method ValidateRecord(h: Header, t: int, o: int) returns (ok: bool)
      requires HeaderFits(h) && image.Length == h.size && 0 <= t < TABLES
      ensures ok == RecordFit(image[..], h, t, o)
    {
      hide HeaderFits, SpecFits, EntryFits, BitmapFits, TextFits, WordIn;
      TableInside(h, OBJECTS);
      var objects := h.tables[OBJECTS].count;
      if t == OBJECTS {
        ok := false;
        if LinkFits(Word(o), objects) && LinkFits(Word(o + 2), objects) && LinkFits(Word(o + 4), objects) {
          ok := ValidateSpec(h, Word(o + OB_TYPE), Word(o + OB_FLAGS), PairAt(o + OB_SPEC));
        }
      } else if t == TEDS {
        ok := ValidateText(PairAt(o), false);
        if ok {
          ok := ValidateText(PairAt(o + 4), false);
          if ok {
            ok := ValidateText(PairAt(o + 8), false);
          }
        }
      } else if t == ICONS {
        ok := ValidateIcon(o, h);
      } else if t == BITS {
        ok := ValidateBitmap(PairAt(o), Signed(Word(o + 4)), Signed(Word(o + 6)));
      } else if t == STRINGS {
        ok := ValidateText(PairAt(o), false);
      } else if t == IMAGES {
        ok := RoomFits(PairAt(o), 1, image.Length, false);
      } else {
        ok := InTable(h, OBJECTS, PairAt(o));
      }
    }

    method ValidateTable(h: Header, t: int) returns (ok: bool)
      requires HeaderFits(h) && image.Length == h.size && 0 <= t < TABLES
      ensures ok == TableFit(image[..], h, t)
    {
      hide Place, HeaderFits, RecordFit;
      TableInside(h, t);
      PlaceNext(TableAt(h, t).start, Bytes(t), 0);
      var offset: UWord, count := h.tables[t].start, h.tables[t].count;
      while count > 0
        invariant 0 <= count <= TableAt(h, t).count && offset == Record(h, t, TableAt(h, t).count - count)
        invariant forall i | 0 <= i < TableAt(h, t).count - count :: RecordFit(image[..], h, t, Record(h, t, i))
      {
        var fits := ValidateRecord(h, t, offset);
        if !fits {
          return false;
        }
        PlaceNext(TableAt(h, t).start, Bytes(t), TableAt(h, t).count - count);
        RecordFits(h, t, TableAt(h, t).count - count);
        offset, count := offset + Bytes(t), count - 1;
      }
      ok := true;
    }

    lemma TableInside(h: Header, t: int)
      requires HeaderFits(h) && 0 <= t < TABLES
      ensures |h.tables| == TABLES && TableFits(h, t)
    {
    }

    /** Checks the whole image before the first byte changes. */
    method ValidateNested(h: Header) returns (ok: bool)
      requires HeaderFits(h) && image.Length == h.size
      ensures ok == Accepted(image[..], h)
    {
      hide HeaderFits, TableFit;
      var p := 0;
      ok := true;
      while ok && p < TABLES
        invariant 0 <= p <= TABLES
        invariant ok ==> forall q | 0 <= q < p :: TableFit(image[..], h, Checked(q))
        invariant !ok ==> !Accepted(image[..], h)
      {
        ok := ValidateTable(h, Checked(p));
        p := p + 1;
      }
      if ok {
        forall t | 0 <= t < TABLES
          ensures TableFit(image[..], h, t)
        {
          assert Checked(if t == TREES then 0 else t + 1) == t;
        }
      }
    }

    /** The order tables are checked in: trees first. */
    function Checked(p: int): (t: int)
      ensures 0 <= p < TABLES ==> 0 <= t < TABLES
    {
      if p == 0 then TREES else p - 1
    }

    // Relocating

    method SetWord(o: int, v: UWord)
      requires 0 <= o && o + 1 < image.Length
      modifies image
      ensures image[..] == WithWord(old(image[..]), o, v)
    {
      image[o], image[o + 1] := v % 0x100, v / 0x100;
    }

    /** Sets the segment of an address, unless it is missing. */
    method RelocatePair(o: int) returns (found: bool)
      requires 0 <= o && o + 3 < image.Length
      modifies image
      ensures image[..] == FixPair(old(image[..]), o, segment) && found == (PairIn(old(image[..]), o) != ABSENT)
    {
      hide WithWord, WordIn;
      found := PairAt(o) != ABSENT;
      if found {
        SetWord(o + 2, segment);
      }
    }

    method RelocateText(o: int, len: int)
      requires 0 <= o && o + 3 < image.Length && 0 <= len && len + 1 < image.Length <= 0xffff
      modifies image
      ensures image[..] == FixText(old(image[..]), o, len, segment)
    {
      hide WithWord, WordIn, FixPair;
      var lo := Word(o);
      var found := RelocatePair(o);
      if found {
        var length := TextLength(lo);
        if length.Some? {
          SetWord(len, Low(length.value as int + 1));
        }
      }
    }

    method RelocateRecord(t: int, o: int)
      requires 0 < t < TABLES && 0 <= o && o + Bytes(t) <= image.Length <= 0xffff
      modifies image
      ensures image[..] == FixRecord(old(image[..]), t, o, segment)
    {
      hide FixPair, FixText;
      if t == TEDS {
        RelocateText(o, o + 24);
        RelocateText(o + 4, o + 26);
        var _ := RelocatePair(o + 8);
      } else {
        var _ := RelocatePair(o);
        if t == ICONS {
          var _ := RelocatePair(o + 4);
          var _ := RelocatePair(o + 8);
        }
      }
    }

    method RelocateTable(h: Header, t: int)
      requires HeaderFits(h) && image.Length == h.size && 0 < t < TABLES
      modifies image
      ensures image[..] == FixAll(old(image[..]), t, TableAt(h, t).start, TableAt(h, t).count, segment)
    {
      hide Place, HeaderFits, FixRecord;
      TableInside(h, t);
      PlaceNext(TableAt(h, t).start, Bytes(t), 0);
      ghost var goal := FixAll(image[..], t, TableAt(h, t).start, TableAt(h, t).count, segment);
      var offset: UWord, count := h.tables[t].start, h.tables[t].count;
      while count > 0
        invariant 0 <= count <= TableAt(h, t).count && offset == Record(h, t, TableAt(h, t).count - count)
        invariant FixAll(image[..], t, offset, count, segment) == goal
      {
        PlaceNext(TableAt(h, t).start, Bytes(t), TableAt(h, t).count - count);
        RecordFits(h, t, TableAt(h, t).count - count);
        RelocateRecord(t, offset);
        offset, count := offset + Bytes(t), count - 1;
      }
    }

    /** Relocates the trees, and shadows outlined roots where the metrics ask for it. */
    method RelocateTrees(h: Header)
      requires HeaderFits(h) && image.Length == h.size && TreesFit(image[..], h)
      modifies image
      ensures image[..] == FixTrees(old(image[..]), h, 0, segment, metrics.outlined)
    {
      hide Place, HeaderFits, FixPair, FixRoot, WordIn, TreesFit;
      TableInside(h, TREES);
      TreesFitAt(image[..], h);
      PlaceNext(TableAt(h, TREES).start, 4, 0);
      ghost var goal := FixTrees(image[..], h, 0, segment, metrics.outlined);
      ghost var i: nat := 0;
      var offset: UWord, count := h.tables[TREES].start, h.tables[TREES].count;
      while count > 0
        invariant 0 <= count && i + count == TableAt(h, TREES).count && offset == Record(h, TREES, i)
        invariant forall j | i <= j < TableAt(h, TREES).count :: TreeFits(image[..], h, j)
        invariant FixTrees(image[..], h, i, segment, metrics.outlined) == goal
      {
        ghost var r := RootOf(h, i);
        PlaceNext(TableAt(h, TREES).start, 4, i);
        RecordFits(h, TREES, i);
        RecordFits(h, OBJECTS, r);
        ghost var before := image[..];
        TreeStep(before, h, i, segment, metrics.outlined, r);
        var root := Word(offset);
        var found := RelocatePair(offset);
        if !found {
          return;
        }
        ShadowRoot(root);
        TreesLeft(before, image[..], h, i + 1);
        offset, count, i := offset + 4, count - 1, i + 1;
      }
    }

    ghost function RootOf(h: Header, i: nat): (r: int)
      requires TreeFits(image[..], h, i)
      reads this, image
      ensures 0 <= r < TableAt(h, OBJECTS).count && Refers(image[..], h, i, r)
    {
      var r :| 0 <= r < TableAt(h, OBJECTS).count && Refers(image[..], h, i, r);
      r
    }

    method ShadowRoot(root: int)
      requires 0 <= root && root + 24 <= image.Length
      modifies image
      ensures image[..] == FixRoot(old(image[..]), root, metrics.outlined)
    {
      hide WithWord, WordIn;
      if metrics.outlined && Word(root + OB_STATE) == OUTLINED && Word(root + OB_TYPE) == G_BOX {
        SetWord(root + OB_STATE, SHADOWED);
      }
    }

    /** Multiplies by adding; the sum wraps. */
    method RepeatAdd(count: Byte, addend: UWord) returns (sum: UWord)
      ensures sum == Low(count * addend)
    {
      var left := count;
      sum := 0;
      while left > 0
        invariant 0 <= left <= count && sum == Low((count - left) * addend)
      {
        LowAdd((count - left) * addend, addend);
        NextMultiple(count - left, addend);
        sum, left := Low(sum as int + addend), left - 1;
      }
    }

    lemma LowAdd(a: int, b: int)
      ensures Low(Low(a) as int + b) == Low(a + b)
    {
    }

    lemma NextMultiple(n: int, a: int)
      ensures n * a + a == (n + 1) * a
    {
    }

    /** Turns one position from characters into pixels. */
    method FixPosition(field: int, kind: int)
      requires 0 <= field && field + 1 < image.Length && 0 <= kind < 4
      modifies image
      ensures image[..] == WithWord(old(image[..]), field, Pixels(WordIn(old(image[..]), field), kind, metrics))
    {
      hide WithWord, WordIn, Low;
      var position: int := Word(field);
      var columns, offset := position % 0x100, position / 0x100;
      var size: UWord;
      if kind == 0 || (kind == 2 && columns != 80) {
        size := RepeatAdd(columns, metrics.characterWidth);
      } else if kind == 2 {
        size := metrics.screenWidth;
      } else if kind == 3 && columns == 25 {
        size := metrics.screenHeight;
      } else {
        size := RepeatAdd(columns, metrics.characterHeight);
      }
      SetWord(field, Low(if offset > 128 then size as int - (0x100 - offset) else size as int + offset));
    }

    method FixObjectAt(o: int)
      requires 0 <= o && o + 24 <= image.Length
      modifies image
      ensures image[..] == FixPositions(old(image[..]), o, 0, metrics)
    {
      hide WithWord, WordIn, Pixels;
      ghost var goal := FixPositions(image[..], o, 0, metrics);
      var field, kind := o + OB_X, 0;
      while kind < 4
        invariant 0 <= kind <= 4 && field == o + OB_X + 2 * kind && FixPositions(image[..], o, kind, metrics) == goal
      {
        FixPosition(field, kind);
        field, kind := field + 2, kind + 1;
      }
    }

    /** Draws a rule over the text of a disabled string between dashes. */
    method FixDivider(o: int)
      requires 0 <= o && o + 24 <= image.Length <= 0xffff
      modifies image
      ensures image[..] == Divide(old(image[..]), o, segment)
    {
      hide WordIn, Ruling;
      if Word(o + OB_TYPE) % 0x100 != G_STRING || Word(o + OB_STATE) / 8 % 2 == 0 {
        return;
      }
      var text := PairAt(o + OB_SPEC);
      if text.hi != segment {
        return;
      }
      var length := TextLength(text.lo);
      if length.None? || length.value == 0 || image[text.lo] != DASH || image[text.lo + length.value - 1] != DASH {
        return;
      }
      DrawRule(text.lo, length.value);
    }

    method DrawRule(lo: int, length: int)
      requires 0 <= lo && 0 <= length && lo + length <= image.Length
      modifies image
      ensures image[..] == Ruling(old(image[..]), lo, lo + length)
    {
      ghost var b := image[..];
      var at, left := lo, length;
      while left > 0
        invariant 0 <= left <= length && at + left == lo + length
        invariant forall k | 0 <= k < |b| :: image[k] == if lo <= k < at then RULE else b[k]
      {
        image[at] := RULE;
        at, left := at + 1, left - 1;
      }
    }

    method RelocateObjects(h: Header)
      requires HeaderFits(h) && image.Length == h.size
      modifies image
      ensures image[..] == FixObjects(old(image[..]), h, 0, segment, metrics)
    {
      hide Place, HeaderFits, FixPair, FixPositions, Divide, WordIn;
      TableInside(h, OBJECTS);
      PlaceNext(TableAt(h, OBJECTS).start, 24, 0);
      ghost var goal := FixObjects(image[..], h, 0, segment, metrics);
      ghost var i: nat := 0;
      var offset: UWord, count := h.tables[OBJECTS].start, h.tables[OBJECTS].count;
      while count > 0
        invariant 0 <= count && i + count == TableAt(h, OBJECTS).count && offset == Record(h, OBJECTS, i)
        invariant FixObjects(image[..], h, i, segment, metrics) == goal
      {
        PlaceNext(TableAt(h, OBJECTS).start, 24, i);
        RecordFits(h, OBJECTS, i);
        if !Boxed(Word(offset + OB_TYPE)) {
          var _ := RelocatePair(offset + OB_SPEC);
        }
        FixObjectAt(offset);
        FixDivider(offset);
        offset, count, i := offset + 24, count - 1, i + 1;
      }
    }

    method Relocate(h: Header)
      requires HeaderFits(h) && image.Length == h.size && TreesFit(image[..], h)
      modifies image
      ensures image[..] == Passed(old(image[..]), h, PASSES, segment, metrics)
    {
      hide HeaderFits, TreesFit, FixAll, FixTrees, FixObjects;
      ghost var b := image[..];
      RelocateTable(h, STRINGS);
      RelocateTable(h, IMAGES);
      Waiting(b, h, 2, segment, metrics);
      PassedTo(b, h, segment, metrics);
      RelocateTrees(h);
      RelocateTable(h, TEDS);
      RelocateTable(h, ICONS);
      RelocateTable(h, BITS);
      RelocateObjects(h);
    }

    // Loading

    /** RSRC_LOAD of a file with these bytes, into the memory granted if any. A call that fails leaves nothing loaded,
        one that comes while a resource is loaded changes nothing. */
    method Load(file: seq<Byte>, memory: Option<UWord>, m: Metrics) returns (ok: bool)
      requires Valid() && (memory.Some? ==> memory.value > 0)
      modifies this
      ensures Valid()
      ensures old(loaded) ==> !ok && loaded && image == old(image) && segment == old(segment) && metrics == old(metrics)
      ensures !old(loaded) ==>
                var h := HeaderOf(file);
                && (ok <==> memory.Some? && HEADER_BYTES <= h.size <= |file| && Accepted(file[..h.size], h))
                && (!ok ==> !loaded)
                && (ok ==> loaded && segment == memory.value && metrics == m
                           && image[..] == Passed(file[..h.size], h, PASSES, segment, m)
                           && (RulesApart(file[..h.size], h, 0) ==>
                               Relocated(file[..h.size], image[..], h, segment, m)))
    {
      hide HeaderFits, Passed, TreesFit, TableFit, RulesApart, Relocated, HeaderOf;
      ok := false;
      if loaded {
        return;
      }
      var h := HeaderOf(file);
      if |file| < HEADER_BYTES {
        return;
      }
      var fits := ValidateHeader(h);
      if !fits || memory.None? || |file| < h.size {
        return;
      }
      HeaderSize(h);
      image := new Byte[h.size](i requires 0 <= i < h.size => file[i]);
      segment, metrics, loaded := memory.value, m, true;
      ghost var b := image[..];
      assert b == file[..h.size];
      ok := ValidateNested(h);
      if ok {
        AcceptedTrees(b, h);
        Relocate(h);
        if RulesApart(b, h, 0) {
          RelocatesAll(b, h, segment, m);
        }
      } else {
        Reset();
      }
    }

    lemma HeaderSize(h: Header)
      requires HeaderFits(h)
      ensures h.size >= HEADER_BYTES
    {
    }

    method Reset()
      modifies this
      ensures Valid() && !loaded
    {
      image := new Byte[0];
      segment, metrics, loaded := 0, NOTHING, false;
    }

    /** RSRC_FREE. */
    method Free() returns (ok: bool)
      requires Valid()
      modifies this
      ensures Valid() && !loaded && ok == old(loaded)
    {
      ok := loaded;
      Reset();
    }

    /** RSRC_GADDR. */
    method Address(kind: int, index: UWord) returns (found: Option<Pair>)
      requires Valid()
      ensures found == if loaded then AddressOf(image[..], segment, kind, index) else None
    {
      found := if loaded then AddressOf(image[..], segment, kind, index) else None;
    }
  }

  /** The seven passes one after the other. */
  lemma PassedTo(b: seq<Byte>, h: Header, segment: UWord, m: Metrics)
    ensures var b2 := Pass(Pass(b, h, STRINGS, segment, m), h, IMAGES, segment, m);
            var b4 := Pass(Pass(b2, h, TREES, segment, m), h, TEDS, segment, m);
            var b6 := Pass(Pass(b4, h, ICONS, segment, m), h, BITS, segment, m);
            && Passed(b, h, 2, segment, m) == b2
            && Passed(b, h, PASSES, segment, m) == Pass(b6, h, OBJECTS, segment, m)
  {
    hide Pass;
    PassedNext(b, h, 0, segment, m);
    PassedNext(b, h, 1, segment, m);
    PassedNext(b, h, 2, segment, m);
    PassedNext(b, h, 3, segment, m);
    PassedNext(b, h, 4, segment, m);
    PassedNext(b, h, 5, segment, m);
    PassedNext(b, h, 6, segment, m);
  }
}
