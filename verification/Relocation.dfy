/** Relocating a whole resource image: trees and objects, whose records reach beyond their own tables, and the seven
    passes together. */
module Relocation {
  import opened ResourceFormat
  import opened WordMath

  const G_BOX := 20
  const G_TEXT := 21
  const G_BOXTEXT := 22
  const G_IMAGE := 23
  const G_USERDEF := 24
  const G_IBOX := 25
  const G_BUTTON := 26
  const G_BOXCHAR := 27
  const G_STRING := 28
  const G_FTEXT := 29
  const G_FBOXTEXT := 30
  const G_ICON := 31
  const G_TITLE := 32

  const OB_TYPE := 6
  const OB_FLAGS := 8
  const OB_STATE := 10
  const OB_SPEC := 12
  const OB_X := 16

  const OUTLINED: UWord := 0x10
  const SHADOWED: UWord := 0x20
  const DASH: Byte := 0x2d
  const RULE: Byte := 0x13

  datatype Metrics = Metrics(screenWidth: UWord, screenHeight: UWord, characterWidth: UWord, characterHeight: UWord,
                             outlined: bool)

  // Trees

  /** An outlined box at the root of a tree becomes a shadowed one. */
  function FixRoot(b: seq<Byte>, root: int, outlined: bool): (b': seq<Byte>)
    ensures |b'| == |b|
  {
    if outlined && WordIn(b, root + OB_STATE) == OUTLINED && WordIn(b, root + OB_TYPE) == G_BOX
    then WithWord(b, root + OB_STATE, SHADOWED) else b
  }

  /** The trees from number i on, up to one that is missing. */
  function FixTrees(b: seq<Byte>, h: Header, i: nat, segment: UWord, outlined: bool): (b': seq<Byte>)
    ensures |b'| == |b|
    decreases TableAt(h, TREES).count - i
  {
    var o := Record(h, TREES, i);
    if i >= TableAt(h, TREES).count || PairIn(b, o) == ABSENT then b
    else FixTrees(FixRoot(FixPair(b, o, segment), WordIn(b, o), outlined), h, i + 1, segment, outlined)
  }

  /** Tree i is an object of the image. */
  ghost predicate TreeFits(b: seq<Byte>, h: Header, i: int) {
    exists c | 0 <= c < TableAt(h, OBJECTS).count :: Refers(b, h, i, c)
  }

  /** The address of tree i is that of object c. */
  ghost predicate Refers(b: seq<Byte>, h: Header, i: int, c: int) {
    WordIn(b, Record(h, TREES, i)) == Record(h, OBJECTS, c) && WordIn(b, Record(h, TREES, i) + 2) == 0
  }

  /** Object c is the root of a tree from number i on. */
  ghost predicate Rooted(b: seq<Byte>, h: Header, i: int, c: int) {
    exists j | i <= j < TableAt(h, TREES).count :: WordIn(b, Record(h, TREES, j)) == Record(h, OBJECTS, c)
  }

  function State(b: seq<Byte>, h: Header, c: int): UWord {
    WordIn(b, Record(h, OBJECTS, c) + OB_STATE)
  }

  /** The state of object c after the trees from number i on were relocated. */
  ghost function StateAfter(b: seq<Byte>, h: Header, i: int, c: int, outlined: bool): UWord {
    if outlined && Rooted(b, h, i, c) && State(b, h, c) == OUTLINED
        && WordIn(b, Record(h, OBJECTS, c) + OB_TYPE) == G_BOX
    then SHADOWED else State(b, h, c)
  }

  /** Only the state of object c may have changed. */
  ghost predicate StateOnly(b: seq<Byte>, b': seq<Byte>, h: Header, c: int) {
    var o := Record(h, OBJECTS, c);
    Kept(b, b', o, o + OB_STATE) && Kept(b, b', o + OB_SPEC, o + Bytes(OBJECTS))
  }

  /** Bytes changed in tables s and t only. */
  ghost predicate Between(b: seq<Byte>, b': seq<Byte>, h: Header, s: int, t: int) {
    |b'| == |b| && forall k | 0 <= k < |b| && !Inside(h, s, k) && !Inside(h, t, k) :: b'[k] == b[k]
  }

  /** Bytes of one record are not bytes of another. */
  lemma RecordsApart(h: Header, s: int, i: int, t: int, j: int)
    requires HeaderFits(h) && 0 <= s < TABLES && 0 <= t < TABLES && (s != t || i != j)
    requires 0 <= i < TableAt(h, s).count && 0 <= j < TableAt(h, t).count
    ensures Record(h, s, i) + Bytes(s) <= Record(h, t, j) || Record(h, t, j) + Bytes(t) <= Record(h, s, i)
    ensures HEADER_BYTES <= Record(h, s, i) && Record(h, s, i) + Bytes(s) <= h.size
  {
    RecordInside(h, s, i);
    RecordInside(h, t, j);
    assert TableFits(h, s) && (s < t ==> !Meet(h, s, t)) && (t < s ==> !Meet(h, t, s));
    if s == t {
      PlaceNext(TableAt(h, s).start, Bytes(s), i);
      PlaceNext(TableAt(h, s).start, Bytes(s), j);
      if i < j {
        PlaceOrder(TableAt(h, s).start, Bytes(s), i + 1, j);
      } else {
        PlaceOrder(TableAt(h, s).start, Bytes(s), j + 1, i);
      }
    }
  }

  lemma RootIs(b: seq<Byte>, root: int, outlined: bool)
    requires 0 <= root && root + 24 <= |b|
    ensures var b' := FixRoot(b, root, outlined);
            && Touched(b, b', root + OB_STATE, root + OB_SPEC)
            && WordIn(b', root + OB_STATE)
               == if outlined && WordIn(b, root + OB_STATE) == OUTLINED && WordIn(b, root + OB_TYPE) == G_BOX
                  then SHADOWED else WordIn(b, root + OB_STATE)
  {
    hide WithWord, WordIn;
    WithWordIs(b, root + OB_STATE, SHADOWED);
  }

  /** One tree: its address, and the state of its root. */
  lemma TreeStep(b: seq<Byte>, h: Header, i: nat, segment: UWord, outlined: bool, r: int)
    requires HeaderFits(h) && |b| == h.size && i < TableAt(h, TREES).count && 0 <= r < TableAt(h, OBJECTS).count
    requires Refers(b, h, i, r)
    ensures var o := Record(h, TREES, i);
            var b' := FixRoot(FixPair(b, o, segment), Record(h, OBJECTS, r), outlined);
            && PairDone(b, b', o, segment) && Between(b, b', h, TREES, OBJECTS)
            && (forall j | 0 <= j < TableAt(h, TREES).count && j != i ::
                  Kept(b, b', Record(h, TREES, j), Record(h, TREES, j) + 4))
            && (forall c | 0 <= c < TableAt(h, OBJECTS).count :: StateOnly(b, b', h, c))
            && (forall c | 0 <= c < TableAt(h, OBJECTS).count && c != r :: State(b', h, c) == State(b, h, c))
            && State(b', h, r) == if outlined && State(b, h, r) == OUTLINED
                                     && WordIn(b, Record(h, OBJECTS, r) + OB_TYPE) == G_BOX
                                  then SHADOWED else State(b, h, r)
  {
    hide FixPair, FixRoot, WordIn, Record, HeaderFits, Inside;
    var (o, root) := (Record(h, TREES, i), Record(h, OBJECTS, r));
    var b1 := FixPair(b, o, segment);
    var b' := FixRoot(b1, root, outlined);
    RecordsApart(h, TREES, i, OBJECTS, r);
    PairIs(b, o, segment);
    RecordsApart(h, OBJECTS, r, TREES, i);
    RootIs(b1, root, outlined);
    KeptWord(b, b1, root, root + 24, root + OB_STATE);
    KeptWord(b, b1, root, root + 24, root + OB_TYPE);
    KeptWord(b1, b', o, o + 4, o);
    KeptWord(b1, b', o, o + 4, o + 2);
    RecordBytes(h, TREES, i);
    RecordBytes(h, OBJECTS, r);
    forall j | 0 <= j < TableAt(h, TREES).count && j != i
      ensures Kept(b, b', Record(h, TREES, j), Record(h, TREES, j) + 4)
    {
      RecordsApart(h, TREES, j, TREES, i);
      RecordsApart(h, TREES, j, OBJECTS, r);
    }
    forall c | 0 <= c < TableAt(h, OBJECTS).count
      ensures StateOnly(b, b', h, c) && (c != r ==> State(b', h, c) == State(b, h, c))
    {
      RecordsApart(h, OBJECTS, c, TREES, i);
      var at := Record(h, OBJECTS, c);
      if c != r {
        RecordsApart(h, OBJECTS, c, OBJECTS, r);
        KeptWord(b, b', at, at + 24, at + OB_STATE);
      }
    }
  }

  lemma RecordBytes(h: Header, t: int, i: int)
    requires 0 <= i < TableAt(h, t).count
    ensures forall k | Record(h, t, i) <= k < Record(h, t, i) + Bytes(t) :: Inside(h, t, k)
  {
    RecordInside(h, t, i);
  }

  /** Relocating the trees gives every one its segment, turns exactly the outlined boxes at their roots into shadowed
      ones, and changes nothing else. */
  lemma {:induction false} TreesAre(b: seq<Byte>, h: Header, i: nat, segment: UWord, outlined: bool)
    requires HeaderFits(h) && |b| == h.size && forall j | i <= j < TableAt(h, TREES).count :: TreeFits(b, h, j)
    ensures var b' := FixTrees(b, h, i, segment, outlined);
            && Between(b, b', h, TREES, OBJECTS)
            && (forall j | i <= j < TableAt(h, TREES).count :: PairDone(b, b', Record(h, TREES, j), segment))
            && (forall j | 0 <= j < i && j < TableAt(h, TREES).count ::
                  Kept(b, b', Record(h, TREES, j), Record(h, TREES, j) + 4))
            && (forall c | 0 <= c < TableAt(h, OBJECTS).count ::
                  StateOnly(b, b', h, c) && State(b', h, c) == StateAfter(b, h, i, c, outlined))
    decreases TableAt(h, TREES).count - i
  {
    hide FixPair, FixRoot, WordIn, Record, HeaderFits, Inside, Kept, Rooted, StateAfter, PairDone, StateOnly, State;
    if i < TableAt(h, TREES).count {
      var o := Record(h, TREES, i);
      assert TreeFits(b, h, i);
      var r :| 0 <= r < TableAt(h, OBJECTS).count && Refers(b, h, i, r);
      var b1 := FixRoot(FixPair(b, o, segment), Record(h, OBJECTS, r), outlined);
      TreeStep(b, h, i, segment, outlined, r);
      TreesLeft(b, b1, h, i + 1);
      TreesAre(b1, h, i + 1, segment, outlined);
      var b' := FixTrees(b1, h, i + 1, segment, outlined);
      assert b' == FixTrees(b, h, i, segment, outlined);
      KeptSame(b, b');
      PairVia(b, b, b1, b', o, segment);
      forall j | 0 <= j < i && j < TableAt(h, TREES).count
        ensures Kept(b, b', Record(h, TREES, j), Record(h, TREES, j) + 4)
      {
        KeptVia(b, b1, b', Record(h, TREES, j), Record(h, TREES, j) + 4);
      }
      forall j | i < j < TableAt(h, TREES).count
        ensures PairDone(b, b', Record(h, TREES, j), segment)
      {
        PairVia(b, b1, b', b', Record(h, TREES, j), segment);
      }
      forall c | 0 <= c < TableAt(h, OBJECTS).count
        ensures StateOnly(b, b', h, c) && State(b', h, c) == StateAfter(b, h, i, c, outlined)
      {
        StateVia(b, b1, b', h, i, c, r, outlined);
      }
    } else {
      KeptSame(b, b);
      TreesNone(b, h, i, outlined);
    }
  }

  lemma TreesNone(b: seq<Byte>, h: Header, i: nat, outlined: bool)
    requires i >= TableAt(h, TREES).count
    ensures forall c :: StateOnly(b, b, h, c) && State(b, h, c) == StateAfter(b, h, i, c, outlined)
  {
  }

  lemma KeptSame(b: seq<Byte>, b': seq<Byte>)
    ensures forall from, to :: Kept(b, b, from, to) && Kept(b', b', from, to)
  {
  }

  lemma KeptVia(b: seq<Byte>, b1: seq<Byte>, b': seq<Byte>, from: int, to: int)
    requires Kept(b, b1, from, to) && Kept(b1, b', from, to)
    ensures Kept(b, b', from, to)
  {
  }

  lemma TreesLeft(b: seq<Byte>, b1: seq<Byte>, h: Header, from: nat)
    requires forall j | from <= j < TableAt(h, TREES).count :: Kept(b, b1, Record(h, TREES, j), Record(h, TREES, j) + 4)
    ensures forall j | from <= j < TableAt(h, TREES).count && TreeFits(b, h, j) :: TreeFits(b1, h, j)
    ensures forall c :: Rooted(b1, h, from, c) <==> Rooted(b, h, from, c)
  {
    hide Record, WordIn;
    forall j | from <= j < TableAt(h, TREES).count
      ensures WordIn(b1, Record(h, TREES, j)) == WordIn(b, Record(h, TREES, j))
      ensures TreeFits(b, h, j) ==> TreeFits(b1, h, j)
    {
      KeptWord(b, b1, Record(h, TREES, j), Record(h, TREES, j) + 4, Record(h, TREES, j));
      KeptWord(b, b1, Record(h, TREES, j), Record(h, TREES, j) + 4, Record(h, TREES, j) + 2);
      if TreeFits(b, h, j) {
        var c :| 0 <= c < TableAt(h, OBJECTS).count && Refers(b, h, j, c);
        assert Refers(b1, h, j, c);
      }
    }
  }

  lemma PairVia(b0: seq<Byte>, b: seq<Byte>, b': seq<Byte>, b1: seq<Byte>, o: int, segment: UWord)
    requires Kept(b0, b, o, o + 4) && PairDone(b, b', o, segment) && Kept(b', b1, o, o + 4)
    ensures PairDone(b0, b1, o, segment)
  {
    hide WordIn;
    WordsAlike(b0, b, o, o + 4);
    WordsAlike(b', b1, o, o + 4);
  }

  lemma StateVia(b: seq<Byte>, b1: seq<Byte>, b': seq<Byte>, h: Header, i: nat, c: int, r: int, outlined: bool)
    requires HeaderFits(h) && i < TableAt(h, TREES).count && Refers(b, h, i, r)
    requires 0 <= c < TableAt(h, OBJECTS).count && 0 <= r < TableAt(h, OBJECTS).count
    requires StateOnly(b, b1, h, c) && StateOnly(b1, b', h, c)
             && State(b', h, c) == StateAfter(b1, h, i + 1, c, outlined)
    requires Rooted(b1, h, i + 1, c) <==> Rooted(b, h, i + 1, c)
    requires State(b1, h, c) == if c == r && outlined && State(b, h, c) == OUTLINED
                                   && WordIn(b, Record(h, OBJECTS, c) + OB_TYPE) == G_BOX
                                then SHADOWED else State(b, h, c)
    ensures StateOnly(b, b', h, c) && State(b', h, c) == StateAfter(b, h, i, c, outlined)
  {
    hide WordIn, HeaderFits;
    KeptWord(b, b1, Record(h, OBJECTS, c), Record(h, OBJECTS, c) + OB_STATE, Record(h, OBJECTS, c) + OB_TYPE);
    if c != r {
      RecordsApart(h, OBJECTS, c, OBJECTS, r);
    }
    assert Rooted(b, h, i, c) <==> c == r || Rooted(b, h, i + 1, c);
  }

  // Objects

  /** The specification of these is a value, not an address. */
  predicate Boxed(word: UWord) {
    word % 0x100 == G_BOX || word % 0x100 == G_IBOX || word % 0x100 == G_BOXCHAR
  }

  /** A position in characters, with a signed offset in pixels in its high byte, in pixels. The width of 80 columns and
      the height of 25 rows are those of the screen. Kinds are x, y, width and height. */
  function Pixels(position: UWord, kind: int, m: Metrics): UWord {
    var (columns, offset) := (position % 0x100, position / 0x100);
    var unit := if kind % 2 == 0 then m.characterWidth else m.characterHeight;
    var size := if kind == 2 && columns == 80 then m.screenWidth
                else if kind == 3 && columns == 25 then m.screenHeight else Low(columns * unit);
    Low(if offset > 128 then size as int - (0x100 - offset) else size + offset)
  }

  function FixPositions(b: seq<Byte>, o: int, kind: nat, m: Metrics): (b': seq<Byte>)
    ensures |b'| == |b|
    decreases 4 - kind
  {
    var field := o + OB_X + 2 * kind;
    if kind >= 4 then b else FixPositions(WithWord(b, field, Pixels(WordIn(b, field), kind, m)), o, kind + 1, m)
  }

  function FixFields(b: seq<Byte>, o: int, segment: UWord, m: Metrics): (b': seq<Byte>)
    ensures |b'| == |b|
  {
    FixPositions(if Boxed(WordIn(b, o + OB_TYPE)) then b else FixPair(b, o + OB_SPEC, segment), o, 0, m)
  }

  ghost predicate PositionsDone(b: seq<Byte>, b': seq<Byte>, o: int, from: int, m: Metrics) {
    forall kind | from <= kind < 4 ::
      WordIn(b', o + OB_X + 2 * kind) == Pixels(WordIn(b, o + OB_X + 2 * kind), kind, m)
  }

  /** An object's address and geometry are relocated, and nothing else in the record changed. */
  ghost predicate ObjectDone(b: seq<Byte>, b': seq<Byte>, o: int, segment: UWord, m: Metrics) {
    && Kept(b, b', o, o + OB_SPEC) && PositionsDone(b, b', o, 0, m)
    && if Boxed(WordIn(b, o + OB_TYPE)) then Kept(b, b', o + OB_SPEC, o + OB_X)
       else PairDone(b, b', o + OB_SPEC, segment)
  }

  lemma {:induction false} PositionsAre(b: seq<Byte>, o: int, kind: nat, m: Metrics)
    requires 0 <= o && o + 24 <= |b| && kind <= 4
    ensures var b' := FixPositions(b, o, kind, m);
            PositionsDone(b, b', o, kind, m) && Touched(b, b', o + OB_X + 2 * kind, o + 24)
    decreases 4 - kind
  {
    hide WithWord, Pixels, WordIn;
    if kind < 4 {
      var field := o + OB_X + 2 * kind;
      var b1 := WithWord(b, field, Pixels(WordIn(b, field), kind, m));
      WithWordIs(b, field, Pixels(WordIn(b, field), kind, m));
      PositionsAre(b1, o, kind + 1, m);
      var b' := FixPositions(b1, o, kind + 1, m);
      KeptWord(b1, b', field, field + 2, field);
      WordsAlike(b, b1, field + 2, o + 24);
    }
  }

  lemma FieldsAre(b: seq<Byte>, o: int, segment: UWord, m: Metrics)
    requires 0 <= o && o + 24 <= |b|
    ensures var b' := FixFields(b, o, segment, m);
            ObjectDone(b, b', o, segment, m) && Touched(b, b', o + OB_SPEC, o + 24)
  {
    hide FixPositions, FixPair, WordIn, Pixels;
    var b1 := if Boxed(WordIn(b, o + OB_TYPE)) then b else FixPair(b, o + OB_SPEC, segment);
    PairIs(b, o + OB_SPEC, segment);
    PositionsAre(b1, o, 0, m);
    WordsAlike(b, b1, o + OB_X, o + 24);
    WordsAlike(b1, FixPositions(b1, o, 0, m), o, o + OB_X);
  }

  // Dividers

  /** A disabled string. */
  predicate Ruled(b: seq<Byte>, o: int) {
    WordIn(b, o + OB_TYPE) % 0x100 == G_STRING && WordIn(b, o + OB_STATE) / 8 % 2 == 1
  }

  /** There is a text at `lo`, and it begins and ends with a dash. */
  predicate Dashed(b: seq<Byte>, lo: nat) {
    lo < TextEnd(b, lo) < |b| && b[lo] == DASH && b[TextEnd(b, lo) - 1] == DASH
  }

  function Ruling(b: seq<Byte>, from: int, to: int): (b': seq<Byte>)
    ensures |b'| == |b|
  {
    seq(|b|, k requires 0 <= k < |b| => if from <= k < to then RULE else b[k])
  }

  /** The text of a disabled string between dashes becomes a rule. */
  function Divide(b: seq<Byte>, o: int, segment: UWord): (b': seq<Byte>)
    ensures |b'| == |b|
  {
    var text := PairIn(b, o + OB_SPEC);
    if Ruled(b, o) && text.hi == segment && Dashed(b, text.lo) then Ruling(b, text.lo, TextEnd(b, text.lo)) else b
  }

  /** The objects from number i on. */
  function FixObjects(b: seq<Byte>, h: Header, i: nat, segment: UWord, m: Metrics): (b': seq<Byte>)
    ensures |b'| == |b|
    decreases TableAt(h, OBJECTS).count - i
  {
    var o := Record(h, OBJECTS, i);
    if i >= TableAt(h, OBJECTS).count then b
    else FixObjects(Divide(FixFields(b, o, segment, m), o, segment), h, i + 1, segment, m)
  }

  function TextOf(b: seq<Byte>, h: Header, c: int): UWord {
    WordIn(b, Record(h, OBJECTS, c) + OB_SPEC)
  }

  /** Byte k is in the text of object c, which is a divider. */
  ghost predicate Divider(b: seq<Byte>, h: Header, c: int, k: int) {
    && Ruled(b, Record(h, OBJECTS, c)) && Dashed(b, TextOf(b, h, c))
    && TextOf(b, h, c) <= k < TextEnd(b, TextOf(b, h, c))
  }

  /** The texts of disabled strings from object i on stay clear of the header and of all tables. */
  ghost predicate RulesApart(b: seq<Byte>, h: Header, i: int) {
    forall c | i <= c < TableAt(h, OBJECTS).count && Ruled(b, Record(h, OBJECTS, c)) :: TextApart(b, h, TextOf(b, h, c))
  }

  /** No disabled string from object i on and before c shares a byte of text with object c. */
  ghost predicate Alone(b: seq<Byte>, h: Header, i: int, c: int) {
    forall a | i <= a < c && Ruled(b, Record(h, OBJECTS, a)) :: Parted(b, TextOf(b, h, a), TextOf(b, h, c))
  }

  ghost predicate Parted(b: seq<Byte>, lo: nat, lo': nat) {
    TextEnd(b, lo) <= lo' || TextEnd(b, lo') <= lo
  }

  /** Outside the objects only dividers changed, into rules, and those that share no text with an earlier one did. */
  ghost predicate Drawn(b: seq<Byte>, b': seq<Byte>, h: Header, i: int) {
    && |b'| == |b|
    && (forall k | 0 <= k < |b| && !Inside(h, OBJECTS, k) && b'[k] != b[k] ::
          b'[k] == RULE && exists c | i <= c < TableAt(h, OBJECTS).count :: Divider(b, h, c, k))
    && (forall c, k: int | i <= c < TableAt(h, OBJECTS).count && 0 <= k < |b| && Alone(b, h, i, c)
        && Divider(b, h, c, k) ::
          b'[k] == RULE)
  }

  /** One object. */
  lemma ObjectStep(b: seq<Byte>, h: Header, i: nat, segment: UWord, m: Metrics)
    requires HeaderFits(h) && |b| == h.size && i < TableAt(h, OBJECTS).count && RulesApart(b, h, i)
    ensures var o := Record(h, OBJECTS, i);
            var b' := Divide(FixFields(b, o, segment, m), o, segment);
            && ObjectDone(b, b', o, segment, m)
            && (forall c | 0 <= c < TableAt(h, OBJECTS).count && c != i ::
                  Kept(b, b', Record(h, OBJECTS, c), Record(h, OBJECTS, c) + 24))
            && forall k | 0 <= k < |b| && !Inside(h, OBJECTS, k) ::
                 b'[k] == if Divider(b, h, i, k) then RULE else b[k]
  {
    hide FixFields, WordIn, Record, HeaderFits, Pixels, RulesApart, Inside, Divide, Divider;
    var o := Record(h, OBJECTS, i);
    var b1 := FixFields(b, o, segment, m);
    var b' := Divide(b1, o, segment);
    RecordBytes(h, OBJECTS, i);
    RecordFits(h, OBJECTS, i);
    FieldsAre(b, o, segment, m);
    DivideIs(b, b1, h, i, segment, m);
    ObjectVia(b, b1, b', o, segment, m);
    forall c | 0 <= c < TableAt(h, OBJECTS).count && c != i
      ensures Kept(b, b', Record(h, OBJECTS, c), Record(h, OBJECTS, c) + 24)
    {
      RecordBytes(h, OBJECTS, c);
      RecordsApart(h, OBJECTS, c, OBJECTS, i);
    }
  }

  lemma ObjectVia(b: seq<Byte>, b1: seq<Byte>, b': seq<Byte>, o: int, segment: UWord, m: Metrics)
    requires ObjectDone(b, b1, o, segment, m) && Kept(b1, b', o, o + 24)
    ensures ObjectDone(b, b', o, segment, m)
  {
    hide WordIn, Pixels;
    WordsAlike(b1, b', o, o + 24);
  }

  /** Drawing the rule, once the fields are fixed. */
  lemma DivideIs(b: seq<Byte>, b1: seq<Byte>, h: Header, i: nat, segment: UWord, m: Metrics)
    requires HeaderFits(h) && |b| == h.size && i < TableAt(h, OBJECTS).count && RulesApart(b, h, i)
    requires var o := Record(h, OBJECTS, i);
             ObjectDone(b, b1, o, segment, m) && Touched(b, b1, o + OB_SPEC, o + 24)
    ensures forall k | 0 <= k < |b| ::
              Divide(b1, Record(h, OBJECTS, i), segment)[k]
              == if !Inside(h, OBJECTS, k) && Divider(b, h, i, k) then RULE else b1[k]
  {
    hide WordIn, Record, HeaderFits, Pixels, TextApart, Inside, Dashed, PositionsDone;
    var o := Record(h, OBJECTS, i);
    WordsAlike(b, b1, o, o + OB_SPEC);
    if Ruled(b, o) {
      RuleIs(b, b1, h, i, segment);
      forall k | TextOf(b, h, i) <= k < TextEnd(b, TextOf(b, h, i))
        ensures !Inside(h, OBJECTS, k)
      {
        TextOutside(b, h, TextOf(b, h, i), k);
      }
    }
  }

  lemma TextOutside(b: seq<Byte>, h: Header, lo: nat, k: int)
    requires TextApart(b, h, lo) && lo <= k <= TextEnd(b, lo)
    ensures !Inside(h, OBJECTS, k)
  {
    assert Spare(h, k);
    SpareOutside(h, OBJECTS, k);
  }

  /** Fixing its fields leaves a disabled string's text and what is at its ends. */
  lemma RuleIs(b: seq<Byte>, b1: seq<Byte>, h: Header, i: nat, segment: UWord)
    requires HeaderFits(h) && |b| == h.size && i < TableAt(h, OBJECTS).count
    requires var o := Record(h, OBJECTS, i);
             Ruled(b, o) && TextApart(b, h, TextOf(b, h, i)) && PairDone(b, b1, o + OB_SPEC, segment)
             && Touched(b, b1, o + OB_SPEC, o + 24)
    ensures var lo := TextOf(b, h, i);
            && TextOf(b1, h, i) == lo && TextEnd(b1, lo) == TextEnd(b, lo) && (Dashed(b1, lo) <==> Dashed(b, lo))
            && (Dashed(b, lo) ==> WordIn(b1, Record(h, OBJECTS, i) + OB_SPEC + 2) == segment)
  {
    hide WordIn, Record, HeaderFits, Tabled;
    var lo := TextOf(b, h, i);
    RecordBytes(h, OBJECTS, i);
    forall k | lo <= k <= TextEnd(b, lo) && k < |b|
      ensures b1[k] == b[k]
    {
      assert Spare(h, k);
      SpareOutside(h, OBJECTS, k);
    }
    TextSame(b, b1, lo);
  }

  lemma SpareOutside(h: Header, t: int, k: int)
    requires Spare(h, k) && 0 <= t < TABLES
    ensures !Inside(h, t, k)
  {
  }

  lemma RecordFits(h: Header, t: int, i: int)
    requires HeaderFits(h) && 0 <= t < TABLES && 0 <= i < TableAt(h, t).count
    ensures HEADER_BYTES <= Record(h, t, i) && Record(h, t, i) + Bytes(t) <= h.size
  {
    RecordInside(h, t, i);
    assert TableFits(h, t);
  }

  /** What one object's rule leaves of the others' texts. */
  lemma RulesLeft(b: seq<Byte>, b1: seq<Byte>, h: Header, i: nat, c: int)
    requires HeaderFits(h) && |b1| == |b| == h.size && i < TableAt(h, OBJECTS).count && RulesApart(b, h, i)
    requires i < c < TableAt(h, OBJECTS).count && Kept(b, b1, Record(h, OBJECTS, c), Record(h, OBJECTS, c) + 24)
    requires forall k | 0 <= k < |b| && !Inside(h, OBJECTS, k) :: b1[k] == if Divider(b, h, i, k) then RULE else b[k]
    ensures Ruled(b1, Record(h, OBJECTS, c)) == Ruled(b, Record(h, OBJECTS, c)) && TextOf(b1, h, c) == TextOf(b, h, c)
    ensures Ruled(b, Record(h, OBJECTS, c)) ==>
              TextEnd(b1, TextOf(b, h, c)) == TextEnd(b, TextOf(b, h, c)) && TextApart(b1, h, TextOf(b, h, c))
    ensures forall k :: Divider(b1, h, c, k) ==> Divider(b, h, c, k)
    ensures forall k :: Divider(b, h, c, k) && Alone(b, h, i, c) ==> Divider(b1, h, c, k)
  {
    hide WordIn, Record, HeaderFits, Inside, Tabled;
    WordsAlike(b, b1, Record(h, OBJECTS, c), Record(h, OBJECTS, c) + 24);
    if Ruled(b, Record(h, OBJECTS, c)) {
      var lo := TextOf(b, h, c);
      assert TextApart(b, h, lo);
      forall k | lo <= k <= TextEnd(b, lo) && k < |b|
        ensures b1[k] == if Divider(b, h, i, k) then RULE else b[k]
      {
        TextOutside(b, h, lo, k);
      }
      TextSame(b, b1, lo);
      if Alone(b, h, i, c) && Ruled(b, Record(h, OBJECTS, i)) {
        assert Parted(b, TextOf(b, h, i), lo);
      }
    }
  }

  /** Relocating the objects fixes every record, and outside the objects draws rules and does nothing else. */
  lemma {:induction false} ObjectsAre(b: seq<Byte>, h: Header, i: nat, segment: UWord, m: Metrics)
    requires HeaderFits(h) && |b| == h.size && RulesApart(b, h, i)
    ensures var b' := FixObjects(b, h, i, segment, m);
            && Drawn(b, b', h, i)
            && (forall c | i <= c < TableAt(h, OBJECTS).count :: ObjectDone(b, b', Record(h, OBJECTS, c), segment, m))
            && (forall c | 0 <= c < i && c < TableAt(h, OBJECTS).count ::
                  Kept(b, b', Record(h, OBJECTS, c), Record(h, OBJECTS, c) + 24))
    decreases TableAt(h, OBJECTS).count - i
  {
    hide FixFields, Divide, Record, HeaderFits, Inside, Kept, ObjectDone, Divider, RulesApart, Drawn, Alone;
    if i < TableAt(h, OBJECTS).count {
      var o := Record(h, OBJECTS, i);
      var b1 := Divide(FixFields(b, o, segment, m), o, segment);
      var b' := FixObjects(b1, h, i + 1, segment, m);
      ObjectStep(b, h, i, segment, m);
      RulesStay(b, b1, h, i);
      ObjectsAre(b1, h, i + 1, segment, m);
      DrawnVia(b, b1, b', h, i);
      ObjectVia(b, b1, b', o, segment, m);
      forall c | 0 <= c < TableAt(h, OBJECTS).count && c != i
        ensures if c < i then Kept(b, b', Record(h, OBJECTS, c), Record(h, OBJECTS, c) + 24)
                else ObjectDone(b, b', Record(h, OBJECTS, c), segment, m)
      {
        if c < i {
          KeptVia(b, b1, b', Record(h, OBJECTS, c), Record(h, OBJECTS, c) + 24);
        } else {
          ObjectAfter(b, b1, b', Record(h, OBJECTS, c), segment, m);
        }
      }
    } else {
      KeptSame(b, b);
      DrawnNone(b, h, i);
    }
  }

  lemma DrawnNone(b: seq<Byte>, h: Header, i: nat)
    requires i >= TableAt(h, OBJECTS).count
    ensures Drawn(b, b, h, i)
  {
  }

  lemma ObjectAfter(b: seq<Byte>, b1: seq<Byte>, b': seq<Byte>, o: int, segment: UWord, m: Metrics)
    requires Kept(b, b1, o, o + 24) && ObjectDone(b1, b', o, segment, m)
    ensures ObjectDone(b, b', o, segment, m)
  {
    hide WordIn, Pixels;
    WordsAlike(b, b1, o, o + 24);
  }

  lemma RulesStay(b: seq<Byte>, b1: seq<Byte>, h: Header, i: nat)
    requires HeaderFits(h) && |b1| == |b| == h.size && i < TableAt(h, OBJECTS).count && RulesApart(b, h, i)
    requires forall c | i < c < TableAt(h, OBJECTS).count ::
               Kept(b, b1, Record(h, OBJECTS, c), Record(h, OBJECTS, c) + 24)
    requires forall k | 0 <= k < |b| && !Inside(h, OBJECTS, k) :: b1[k] == if Divider(b, h, i, k) then RULE else b[k]
    ensures RulesApart(b1, h, i + 1)
  {
    hide Record, HeaderFits, Inside, Ruled, Divider, Kept, TextApart;
    forall c | i < c < TableAt(h, OBJECTS).count && Ruled(b1, Record(h, OBJECTS, c))
      ensures TextApart(b1, h, TextOf(b1, h, c))
    {
      RulesLeft(b, b1, h, i, c);
    }
  }

  lemma DrawnVia(b: seq<Byte>, b1: seq<Byte>, b': seq<Byte>, h: Header, i: nat)
    requires HeaderFits(h) && |b1| == |b| == h.size && i < TableAt(h, OBJECTS).count && RulesApart(b, h, i)
    requires forall c | i < c < TableAt(h, OBJECTS).count ::
               Kept(b, b1, Record(h, OBJECTS, c), Record(h, OBJECTS, c) + 24)
    requires forall k | 0 <= k < |b| && !Inside(h, OBJECTS, k) :: b1[k] == if Divider(b, h, i, k) then RULE else b[k]
    requires Drawn(b1, b', h, i + 1)
    ensures Drawn(b, b', h, i)
  {
    hide Record, HeaderFits, Inside, Ruled, Dashed, Kept, RulesApart, Divider, Alone;
    forall k | 0 <= k < |b| && !Inside(h, OBJECTS, k) && b'[k] != b[k]
      ensures b'[k] == RULE && exists c | i <= c < TableAt(h, OBJECTS).count :: Divider(b, h, c, k)
    {
      if b'[k] != b1[k] {
        var c :| i < c < TableAt(h, OBJECTS).count && Divider(b1, h, c, k);
        RulesLeft(b, b1, h, i, c);
      }
    }
    forall c, k: int | i <= c < TableAt(h, OBJECTS).count && 0 <= k < |b| && Alone(b, h, i, c) && Divider(b, h, c, k)
      ensures b'[k] == RULE
    {
      DividerOutside(b, h, i, c, k);
      if c > i {
        RulesLeft(b, b1, h, i, c);
        AloneStays(b, b1, h, i, c);
      }
    }
  }

  lemma DividerOutside(b: seq<Byte>, h: Header, i: nat, c: int, k: int)
    requires RulesApart(b, h, i) && i <= c < TableAt(h, OBJECTS).count && Divider(b, h, c, k)
    ensures !Inside(h, OBJECTS, k) && Ruled(b, Record(h, OBJECTS, c))
  {
    TextOutside(b, h, TextOf(b, h, c), k);
  }

  lemma AloneStays(b: seq<Byte>, b1: seq<Byte>, h: Header, i: nat, c: int)
    requires HeaderFits(h) && |b1| == |b| == h.size && i < c < TableAt(h, OBJECTS).count && RulesApart(b, h, i)
    requires forall c | i < c < TableAt(h, OBJECTS).count ::
               Kept(b, b1, Record(h, OBJECTS, c), Record(h, OBJECTS, c) + 24)
    requires forall k | 0 <= k < |b| && !Inside(h, OBJECTS, k) :: b1[k] == if Divider(b, h, i, k) then RULE else b[k]
    requires Alone(b, h, i, c) && Ruled(b, Record(h, OBJECTS, c))
    ensures Alone(b1, h, i + 1, c)
  {
    hide Record, HeaderFits, Inside, Ruled, Kept, RulesApart, Divider, TextApart;
    RulesLeft(b, b1, h, i, c);
    forall a | i < a < c && Ruled(b1, Record(h, OBJECTS, a))
      ensures Parted(b1, TextOf(b1, h, a), TextOf(b1, h, c))
    {
      RulesLeft(b, b1, h, i, a);
      assert Parted(b, TextOf(b, h, a), TextOf(b, h, c));
    }
  }

  // The seven passes

  const PASSES := 7

  /** The table that pass p relocates. */
  function Order(p: int): (t: int)
    ensures 0 <= t < TABLES
  {
    match p
    case 0 => STRINGS
    case 1 => IMAGES
    case 2 => TREES
    case 3 => TEDS
    case 4 => ICONS
    case 5 => BITS
    case _ => OBJECTS
  }

  function Pass(b: seq<Byte>, h: Header, t: int, segment: UWord, m: Metrics): (b': seq<Byte>)
    ensures |b'| == |b|
  {
    if t == OBJECTS then FixObjects(b, h, 0, segment, m)
    else if t == TREES then FixTrees(b, h, 0, segment, m.outlined)
    else FixAll(b, t, TableAt(h, t).start, TableAt(h, t).count, segment)
  }

  /** The image after the first p passes. */
  function Passed(b: seq<Byte>, h: Header, p: nat, segment: UWord, m: Metrics): (b': seq<Byte>)
    ensures |b'| == |b|
  {
    if p == 0 then b else Pass(Passed(b, h, p - 1, segment, m), h, Order(p - 1), segment, m)
  }

  ghost predicate TreesFit(b: seq<Byte>, h: Header) {
    forall i | 0 <= i < TableAt(h, TREES).count :: TreeFits(b, h, i)
  }

  /** No byte of table t changed. */
  ghost predicate Unmoved(b: seq<Byte>, b': seq<Byte>, h: Header, t: int) {
    |b'| == |b| && forall k | 0 <= k < |b| && Inside(h, t, k) :: b'[k] == b[k]
  }

  lemma UnmovedVia(b: seq<Byte>, b1: seq<Byte>, b': seq<Byte>, h: Header, t: int)
    requires Unmoved(b, b1, h, t) && Unmoved(b1, b', h, t)
    ensures Unmoved(b, b', h, t)
  {
  }

  lemma UnmovedRecord(b: seq<Byte>, b': seq<Byte>, h: Header, t: int, i: int)
    requires Unmoved(b, b', h, t) && 0 <= i < TableAt(h, t).count
    ensures Kept(b, b', Record(h, t, i), Record(h, t, i) + Bytes(t))
  {
    RecordBytes(h, t, i);
  }

  /** A pass over any table but the objects fixes its records, and touches nothing else but states of objects. */
  lemma PassIs(b: seq<Byte>, h: Header, t: int, segment: UWord, m: Metrics)
    requires HeaderFits(h) && |b| == h.size && 0 < t < TABLES && (t == TREES ==> TreesFit(b, h))
    ensures var b' := Pass(b, h, t, segment, m);
            && Between(b, b', h, t, if t == TREES then OBJECTS else t)
            && forall i | 0 <= i < TableAt(h, t).count :: RecordDone(b, b', h, t, Record(h, t, i), segment)
  {
    hide FixAll, FixTrees, WordIn, PairDone, Kept, Place;
    if t == TREES {
      TreesAre(b, h, 0, segment, m.outlined);
    } else {
      var (start, n) := (TableAt(h, t).start, TableAt(h, t).count);
      assert TableFits(h, t);
      forall k | start <= k < Place(start, Bytes(t), n)
        ensures Tabled(h, k)
      {
        assert Inside(h, t, k);
      }
      AllIs(b, h, t, start, n, segment);
    }
  }

  /** Until the objects' turn, a table changes in its own pass only, the states of objects in that of the trees. */
  lemma Elsewhere(b: seq<Byte>, h: Header, t: int, u: int, segment: UWord, m: Metrics)
    requires HeaderFits(h) && |b| == h.size && 0 < t < TABLES && (t == TREES ==> TreesFit(b, h))
    requires 0 <= u < TABLES && u != t && (t == TREES ==> u != OBJECTS)
    ensures Unmoved(b, Pass(b, h, t, segment, m), h, u)
  {
    hide Pass, Inside, RecordDone, Record, HeaderFits;
    PassIs(b, h, t, segment, m);
    forall k | 0 <= k < |b| && Inside(h, u, k)
      ensures !Inside(h, t, k) && (t == TREES ==> !Inside(h, OBJECTS, k))
    {
      if Inside(h, t, k) {
        OneTable(h, t, u, k);
      }
      if t == TREES && Inside(h, OBJECTS, k) {
        OneTable(h, OBJECTS, u, k);
      }
    }
  }

  lemma PassTables(b: seq<Byte>, h: Header, t: int, segment: UWord, m: Metrics)
    requires HeaderFits(h) && |b| == h.size && 0 < t < TABLES && (t == TREES ==> TreesFit(b, h))
    ensures TablesOnly(b, Pass(b, h, t, segment, m), h)
  {
    hide Pass, Inside, RecordDone, Record, HeaderFits;
    PassIs(b, h, t, segment, m);
    forall k | 0 <= k < |b| && !Tabled(h, k)
      ensures !Inside(h, t, k) && !Inside(h, OBJECTS, k)
    {
    }
  }

  /** Until its own turn a table is as it was loaded. */
  lemma {:induction false} Waiting(b: seq<Byte>, h: Header, p: nat, segment: UWord, m: Metrics)
    requires HeaderFits(h) && |b| == h.size && TreesFit(b, h) && p < PASSES
    ensures var b1 := Passed(b, h, p, segment, m);
            && TablesOnly(b, b1, h)
            && (forall q | p <= q < PASSES && Order(q) != OBJECTS :: Unmoved(b, b1, h, Order(q)))
            && (p <= 2 ==> Unmoved(b, b1, h, OBJECTS) && TreesFit(b1, h))
  {
    hide Pass, Inside, HeaderFits, TreesFit, TablesOnly, Unmoved;
    if p == 0 {
      UnmovedSame(b, h);
    } else {
      Waiting(b, h, p - 1, segment, m);
      var (b0, b1) := (Passed(b, h, p - 1, segment, m), Passed(b, h, p, segment, m));
      var t := Order(p - 1);
      PassTables(b0, h, t, segment, m);
      TablesVia(b, b0, b1, h);
      forall q | p <= q < PASSES && Order(q) != OBJECTS
        ensures Unmoved(b, b1, h, Order(q))
      {
        Elsewhere(b0, h, t, Order(q), segment, m);
        UnmovedVia(b, b0, b1, h, Order(q));
      }
      if p <= 2 {
        Elsewhere(b0, h, t, OBJECTS, segment, m);
        UnmovedVia(b, b0, b1, h, OBJECTS);
        assert Order(2) == TREES;
        TreesStay(b, b1, h);
      }
    }
  }

  lemma UnmovedSame(b: seq<Byte>, h: Header)
    ensures TablesOnly(b, b, h) && forall t :: Unmoved(b, b, h, t)
  {
  }

  lemma TablesVia(b: seq<Byte>, b0: seq<Byte>, b1: seq<Byte>, h: Header)
    requires TablesOnly(b, b0, h) && TablesOnly(b0, b1, h)
    ensures TablesOnly(b, b1, h)
  {
  }

  lemma TreesStay(b: seq<Byte>, b1: seq<Byte>, h: Header)
    requires Unmoved(b, b1, h, TREES) && TreesFit(b, h)
    ensures TreesFit(b1, h)
  {
    hide Record;
    forall i | 0 <= i < TableAt(h, TREES).count
      ensures Kept(b, b1, Record(h, TREES, i), Record(h, TREES, i) + 4)
    {
      UnmovedRecord(b, b1, h, TREES, i);
    }
    TreesLeft(b, b1, h, 0);
  }

  /** After its own turn a table is not touched again before the objects' turn. */
  lemma {:induction false} Resting(b: seq<Byte>, h: Header, p: nat, q: nat, t: int, segment: UWord, m: Metrics)
    requires HeaderFits(h) && |b| == h.size && TreesFit(b, h) && p <= q < PASSES && 0 <= t < TABLES
    requires forall r | p <= r < q :: Order(r) != t && (t == OBJECTS ==> Order(r) != TREES)
    ensures Unmoved(Passed(b, h, p, segment, m), Passed(b, h, q, segment, m), h, t)
  {
    hide Pass, Inside, HeaderFits, TreesFit, Unmoved;
    UnmovedSame(Passed(b, h, p, segment, m), h);
    if p < q {
      Resting(b, h, p, q - 1, t, segment, m);
      Waiting(b, h, q - 1, segment, m);
      var b0 := Passed(b, h, q - 1, segment, m);
      Elsewhere(b0, h, Order(q - 1), t, segment, m);
      UnmovedVia(Passed(b, h, p, segment, m), b0, Passed(b, h, q, segment, m), h, t);
    }
  }

  /** The pass a table is relocated in. */
  function Turn(t: int): (p: nat)
    ensures 0 < t < TABLES ==> p < PASSES - 1 && Order(p) == t
    ensures forall q | 0 <= q < PASSES && q != p && 0 < t < TABLES :: Order(q) != t
  {
    match t
    case 4 => 0
    case 5 => 1
    case 6 => 2
    case 1 => 3
    case 2 => 4
    case 3 => 5
    case _ => 6
  }

  /** Before the objects' turn all other records are fixed. */
  lemma OthersFixed(b: seq<Byte>, h: Header, t: int, i: int, segment: UWord, m: Metrics)
    requires HeaderFits(h) && |b| == h.size && TreesFit(b, h) && 0 < t < TABLES && 0 <= i < TableAt(h, t).count
    ensures RecordDone(b, Passed(b, h, PASSES - 1, segment, m), h, t, Record(h, t, i), segment)
  {
    hide Pass, Passed, Inside, HeaderFits, TreesFit, Unmoved, RecordDone, TablesOnly, Record, Bytes;
    var p := Turn(t);
    var (b0, b1, b') := (Passed(b, h, p, segment, m), Passed(b, h, p + 1, segment, m), Passed(b, h, 6, segment, m));
    Waiting(b, h, p, segment, m);
    PassIs(b0, h, t, segment, m);
    PassedNext(b, h, p, segment, m);
    Resting(b, h, p + 1, 6, t, segment, m);
    UnmovedRecord(b, b0, h, t, i);
    UnmovedRecord(b1, b', h, t, i);
    RecordVia(b, b0, b1, b', h, t, Record(h, t, i), segment);
  }

  lemma PassedNext(b: seq<Byte>, h: Header, p: nat, segment: UWord, m: Metrics)
    ensures Passed(b, h, p + 1, segment, m) == Pass(Passed(b, h, p, segment, m), h, Order(p), segment, m)
  {
  }

  /** Before their own turn the objects only have the states that the trees' turn gave them. */
  lemma ObjectsWaiting(b: seq<Byte>, h: Header, c: int, segment: UWord, m: Metrics)
    requires HeaderFits(h) && |b| == h.size && TreesFit(b, h) && 0 <= c < TableAt(h, OBJECTS).count
    ensures var b' := Passed(b, h, PASSES - 1, segment, m);
            StateOnly(b, b', h, c) && State(b', h, c) == StateAfter(b, h, 0, c, m.outlined)
  {
    hide Passed, Inside, HeaderFits, TreesFit, Unmoved, Record, WordIn, FixTrees, Kept, StateOnly, State, StateAfter,
         Rooted;
    var (b0, b1, b') := (Passed(b, h, 2, segment, m), Passed(b, h, 3, segment, m), Passed(b, h, 6, segment, m));
    Waiting(b, h, 2, segment, m);
    PassedNext(b, h, 2, segment, m);
    TreesFitAt(b0, h);
    TreesAre(b0, h, 0, segment, m.outlined);
    Resting(b, h, 3, 6, OBJECTS, segment, m);
    UnmovedRecord(b, b0, h, OBJECTS, c);
    UnmovedRecord(b1, b', h, OBJECTS, c);
    assert Order(2) == TREES;
    RootsStay(b, b0, h);
    StateThrough(b, b0, b1, b', h, c, m.outlined);
  }

  lemma StateThrough(b: seq<Byte>, b0: seq<Byte>, b1: seq<Byte>, b': seq<Byte>, h: Header, c: int, outlined: bool)
    requires var o := Record(h, OBJECTS, c); Kept(b, b0, o, o + 24) && Kept(b1, b', o, o + 24)
    requires StateOnly(b0, b1, h, c) && State(b1, h, c) == StateAfter(b0, h, 0, c, outlined)
    requires Rooted(b0, h, 0, c) <==> Rooted(b, h, 0, c)
    ensures StateOnly(b, b', h, c) && State(b', h, c) == StateAfter(b, h, 0, c, outlined)
  {
    hide WordIn, Record, Rooted;
    WordsAlike(b, b0, Record(h, OBJECTS, c), Record(h, OBJECTS, c) + 24);
    WordsAlike(b1, b', Record(h, OBJECTS, c), Record(h, OBJECTS, c) + 24);
  }

  lemma TreesFitAt(b: seq<Byte>, h: Header)
    requires TreesFit(b, h)
    ensures forall j | 0 <= j < TableAt(h, TREES).count :: TreeFits(b, h, j)
  {
  }

  lemma RootsStay(b: seq<Byte>, b0: seq<Byte>, h: Header)
    requires Unmoved(b, b0, h, TREES)
    ensures forall c :: Rooted(b0, h, 0, c) <==> Rooted(b, h, 0, c)
  {
    hide Record;
    forall i | 0 <= i < TableAt(h, TREES).count
      ensures Kept(b, b0, Record(h, TREES, i), Record(h, TREES, i) + 4)
    {
      UnmovedRecord(b, b0, h, TREES, i);
    }
    TreesLeft(b, b0, h, 0);
  }

  /** The dividers are those of the file. */
  lemma RulesWaiting(b: seq<Byte>, b': seq<Byte>, h: Header, c: int, outlined: bool)
    requires HeaderFits(h) && |b'| == |b| == h.size && 0 <= c < TableAt(h, OBJECTS).count && RulesApart(b, h, 0)
    requires TablesOnly(b, b', h) && StateOnly(b, b', h, c) && State(b', h, c) == StateAfter(b, h, 0, c, outlined)
    ensures var o := Record(h, OBJECTS, c);
            && (Ruled(b', o) <==> Ruled(b, o)) && TextOf(b', h, c) == TextOf(b, h, c)
            && (Ruled(b, o) ==> TextEnd(b', TextOf(b, h, c)) == TextEnd(b, TextOf(b, h, c))
                                && TextApart(b', h, TextOf(b, h, c)))
            && forall k :: Divider(b', h, c, k) <==> Divider(b, h, c, k)
  {
    hide WordIn, Record, HeaderFits, Inside, Tabled;
    var o := Record(h, OBJECTS, c);
    WordsAlike(b, b', o, o + OB_STATE);
    WordsAlike(b, b', o + OB_SPEC, o + 24);
    if Ruled(b, o) {
      var lo := TextOf(b, h, c);
      forall k | lo <= k <= TextEnd(b, lo) && k < |b|
        ensures b'[k] == b[k]
      {
        assert Spare(h, k);
      }
      TextSame(b, b', lo);
      assert Dashed(b', lo) <==> Dashed(b, lo);
    }
  }

  // What relocation comes to

  /** Object c of the image as loaded: links, type and flags are those of the file, a boxed root may have got a shadow,
      an address its segment, and the geometry is in pixels. */
  ghost predicate ObjectRelocated(b: seq<Byte>, b': seq<Byte>, h: Header, c: int, segment: UWord, m: Metrics) {
    var o := Record(h, OBJECTS, c);
    && Kept(b, b', o, o + OB_STATE) && State(b', h, c) == StateAfter(b, h, 0, c, m.outlined)
    && PositionsDone(b, b', o, 0, m)
    && if Boxed(WordIn(b, o + OB_TYPE)) then Kept(b, b', o + OB_SPEC, o + OB_X)
       else PairDone(b, b', o + OB_SPEC, segment)
  }

  /** Outside the tables dividers became rules, those at least that share no text with an earlier disabled string, and
      nothing else changed. */
  ghost predicate SpareDrawn(b: seq<Byte>, b': seq<Byte>, h: Header) {
    && |b'| == |b| && Kept(b, b', 0, HEADER_BYTES)
    && (forall k | 0 <= k < |b| && !Tabled(h, k) && b'[k] != b[k] ::
          b'[k] == RULE && exists c | 0 <= c < TableAt(h, OBJECTS).count :: Divider(b, h, c, k))
    && (forall c, k: int | 0 <= c < TableAt(h, OBJECTS).count && 0 <= k < |b| && Alone(b, h, 0, c)
        && Divider(b, h, c, k) ::
          b'[k] == RULE)
  }

  /** The whole image as loaded, against the file. */
  ghost predicate Relocated(b: seq<Byte>, b': seq<Byte>, h: Header, segment: UWord, m: Metrics) {
    && SpareDrawn(b, b', h)
    && (forall t, i | 0 < t < TABLES && 0 <= i < TableAt(h, t).count ::
          RecordDone(b, b', h, t, Record(h, t, i), segment))
    && (forall c | 0 <= c < TableAt(h, OBJECTS).count :: ObjectRelocated(b, b', h, c, segment, m))
  }

  lemma TextSpare(b: seq<Byte>, h: Header, lo: nat, k: int)
    requires TextApart(b, h, lo) && lo <= k <= TextEnd(b, lo)
    ensures Spare(h, k)
  {
  }

  /** The objects' own turn leaves the other tables and the header alone. */
  lemma ObjectsElsewhere(b: seq<Byte>, b': seq<Byte>, h: Header, k: int)
    requires HeaderFits(h) && |b'| == |b| == h.size && RulesApart(b, h, 0) && Drawn(b, b', h, 0) && 0 <= k < |b|
    requires k < HEADER_BYTES || (exists t :: 0 < t < TABLES && Inside(h, t, k))
    ensures b'[k] == b[k]
  {
    hide Record, HeaderFits, Inside, Dashed, Ruled;
    if k < HEADER_BYTES {
      if Inside(h, OBJECTS, k) {
        OneTable(h, OBJECTS, OBJECTS, k);
      }
    } else {
      var t :| 0 < t < TABLES && Inside(h, t, k);
      assert Tabled(h, k);
      if Inside(h, OBJECTS, k) {
        OneTable(h, OBJECTS, t, k);
      }
    }
    if b'[k] != b[k] {
      var c :| 0 <= c < TableAt(h, OBJECTS).count && Divider(b, h, c, k);
      assert TextApart(b, h, TextOf(b, h, c));
      TextSpare(b, h, TextOf(b, h, c), k);
    }
  }

  /** Relocating an image whose tables fit, whose trees lead to objects and whose disabled strings keep clear of the
      tables does to every record what it is meant to, and nothing else. */
  lemma RelocatesAll(b: seq<Byte>, h: Header, segment: UWord, m: Metrics)
    requires HeaderFits(h) && |b| == h.size && TreesFit(b, h) && RulesApart(b, h, 0)
    ensures Relocated(b, Passed(b, h, PASSES, segment, m), h, segment, m)
  {
    hide Pass, Passed, Inside, HeaderFits, TreesFit, RecordDone, ObjectRelocated, RulesApart, Drawn, SpareDrawn, Record;
    var (b1, b') := (Passed(b, h, PASSES - 1, segment, m), Passed(b, h, PASSES, segment, m));
    PassedNext(b, h, PASSES - 1, segment, m);
    Waiting(b, h, PASSES - 1, segment, m);
    RulesAreWaiting(b, h, segment, m);
    LastPass(b1, h, segment, m);
    forall t, i | 0 < t < TABLES && 0 <= i < TableAt(h, t).count
      ensures RecordDone(b, b', h, t, Record(h, t, i), segment)
    {
      OthersFixed(b, h, t, i, segment, m);
      RecordRests(b, b1, b', h, t, i, segment);
    }
    forall c | 0 <= c < TableAt(h, OBJECTS).count
      ensures ObjectRelocated(b, b', h, c, segment, m)
    {
      ObjectsWaiting(b, h, c, segment, m);
      ObjectLast(b, b1, b', h, c, segment, m);
    }
    SpareLast(b, b1, b', h, segment, m);
  }

  lemma RulesAreWaiting(b: seq<Byte>, h: Header, segment: UWord, m: Metrics)
    requires HeaderFits(h) && |b| == h.size && TreesFit(b, h) && RulesApart(b, h, 0)
    ensures RulesApart(Passed(b, h, PASSES - 1, segment, m), h, 0)
  {
    hide Passed, Inside, HeaderFits, TreesFit, Record, Ruled, TextApart, StateOnly, State, StateAfter, Divider;
    var b1 := Passed(b, h, PASSES - 1, segment, m);
    Waiting(b, h, PASSES - 1, segment, m);
    forall c | 0 <= c < TableAt(h, OBJECTS).count && Ruled(b1, Record(h, OBJECTS, c))
      ensures TextApart(b1, h, TextOf(b1, h, c))
    {
      ObjectsWaiting(b, h, c, segment, m);
      RulesWaiting(b, b1, h, c, m.outlined);
    }
  }

  lemma LastPass(b: seq<Byte>, h: Header, segment: UWord, m: Metrics)
    requires HeaderFits(h) && |b| == h.size && RulesApart(b, h, 0)
    ensures var b' := Pass(b, h, Order(PASSES - 1), segment, m);
            && Drawn(b, b', h, 0)
            && forall c | 0 <= c < TableAt(h, OBJECTS).count :: ObjectDone(b, b', Record(h, OBJECTS, c), segment, m)
  {
    hide FixObjects, ObjectDone, Drawn, Record;
    ObjectsAre(b, h, 0, segment, m);
  }

  lemma RecordRests(b: seq<Byte>, b1: seq<Byte>, b': seq<Byte>, h: Header, t: int, i: int, segment: UWord)
    requires HeaderFits(h) && |b'| == |b1| == |b| == h.size && RulesApart(b1, h, 0) && Drawn(b1, b', h, 0)
    requires 0 < t < TABLES && 0 <= i < TableAt(h, t).count && RecordDone(b, b1, h, t, Record(h, t, i), segment)
    ensures RecordDone(b, b', h, t, Record(h, t, i), segment)
  {
    hide HeaderFits, RecordDone, RulesApart, Drawn, Record, Inside, Bytes;
    var o := Record(h, t, i);
    RecordBytes(h, t, i);
    forall k | o <= k < o + Bytes(t) && 0 <= k < |b1|
      ensures b'[k] == b1[k]
    {
      assert Inside(h, t, k);
      ObjectsElsewhere(b1, b', h, k);
    }
    UnmovedSame(b, h);
    KeptSame(b, b1);
    RecordVia(b, b, b1, b', h, t, o, segment);
  }

  lemma ObjectLast(b: seq<Byte>, b1: seq<Byte>, b': seq<Byte>, h: Header, c: int, segment: UWord, m: Metrics)
    requires StateOnly(b, b1, h, c) && State(b1, h, c) == StateAfter(b, h, 0, c, m.outlined)
    requires ObjectDone(b1, b', Record(h, OBJECTS, c), segment, m)
    ensures ObjectRelocated(b, b', h, c, segment, m)
  {
    hide WordIn, Record, Pixels, StateAfter;
    var o := Record(h, OBJECTS, c);
    WordsAlike(b, b1, o, o + OB_STATE);
    WordsAlike(b, b1, o + OB_SPEC, o + 24);
    WordsAlike(b1, b', o, o + OB_SPEC);
  }

  lemma SpareLast(b: seq<Byte>, b1: seq<Byte>, b': seq<Byte>, h: Header, segment: UWord, m: Metrics)
    requires HeaderFits(h) && |b| == h.size && TreesFit(b, h) && RulesApart(b, h, 0) && RulesApart(b1, h, 0)
    requires b1 == Passed(b, h, PASSES - 1, segment, m) && |b'| == |b| && Drawn(b1, b', h, 0)
    ensures SpareDrawn(b, b', h)
  {
    hide Passed, Inside, HeaderFits, TreesFit, Record, RulesApart, Divider, Ruled, StateOnly, State, StateAfter;
    Waiting(b, h, PASSES - 1, segment, m);
    assert |b1| == |b|;
    forall c, k | 0 <= c < TableAt(h, OBJECTS).count
      ensures Divider(b1, h, c, k) <==> Divider(b, h, c, k)
    {
      ObjectsWaiting(b, h, c, segment, m);
      RulesWaiting(b, b1, h, c, m.outlined);
    }
    forall c | 0 <= c < TableAt(h, OBJECTS).count
      ensures Alone(b, h, 0, c) && Ruled(b, Record(h, OBJECTS, c)) ==> Alone(b1, h, 0, c)
    {
      if Alone(b, h, 0, c) && Ruled(b, Record(h, OBJECTS, c)) {
        AloneWaiting(b, b1, h, c, segment, m);
      }
    }
    forall k | 0 <= k < HEADER_BYTES && k < |b|
      ensures b'[k] == b[k]
    {
      HeaderUntabled(h, k);
      ObjectsElsewhere(b1, b', h, k);
    }
    DividersRuled(b, h);
    ObjectsUntabled(h);
    forall k | 0 <= k < |b| && !Tabled(h, k) && b'[k] != b[k]
      ensures b'[k] == RULE && exists c | 0 <= c < TableAt(h, OBJECTS).count :: Divider(b, h, c, k)
    {
      assert b1[k] == b[k] && !Inside(h, OBJECTS, k);
      var c :| 0 <= c < TableAt(h, OBJECTS).count && Divider(b1, h, c, k);
      assert Divider(b, h, c, k);
    }
    forall c, k: int | 0 <= c < TableAt(h, OBJECTS).count && 0 <= k < |b| && Alone(b, h, 0, c) && Divider(b, h, c, k)
      ensures b'[k] == RULE
    {
      assert Ruled(b, Record(h, OBJECTS, c)) && Divider(b1, h, c, k);
      assert Alone(b1, h, 0, c);
    }
  }

  lemma HeaderUntabled(h: Header, k: int)
    requires HeaderFits(h) && k < HEADER_BYTES
    ensures !Tabled(h, k)
  {
    forall t | 0 <= t < TABLES
      ensures !Inside(h, t, k)
    {
      if Inside(h, t, k) {
        OneTable(h, t, t, k);
      }
    }
  }

  lemma DividersRuled(b: seq<Byte>, h: Header)
    ensures forall c, k :: Divider(b, h, c, k) ==> Ruled(b, Record(h, OBJECTS, c))
  {
  }

  lemma ObjectsUntabled(h: Header)
    ensures forall k | !Tabled(h, k) :: !Inside(h, OBJECTS, k)
  {
  }

  lemma AloneWaiting(b: seq<Byte>, b1: seq<Byte>, h: Header, c: int, segment: UWord, m: Metrics)
    requires HeaderFits(h) && |b| == h.size && TreesFit(b, h) && RulesApart(b, h, 0)
    requires b1 == Passed(b, h, PASSES - 1, segment, m) && 0 <= c < TableAt(h, OBJECTS).count
    requires Alone(b, h, 0, c) && Ruled(b, Record(h, OBJECTS, c))
    ensures Alone(b1, h, 0, c)
  {
    hide Passed, Inside, HeaderFits, TreesFit, Record, RulesApart, Divider, Ruled, StateOnly, State, StateAfter;
    Waiting(b, h, PASSES - 1, segment, m);
    ObjectsWaiting(b, h, c, segment, m);
    RulesWaiting(b, b1, h, c, m.outlined);
    forall a | 0 <= a < c && Ruled(b1, Record(h, OBJECTS, a))
      ensures Parted(b1, TextOf(b1, h, a), TextOf(b1, h, c))
    {
      ObjectsWaiting(b, h, a, segment, m);
      RulesWaiting(b, b1, h, a, m.outlined);
      assert Parted(b, TextOf(b, h, a), TextOf(b, h, c));
    }
  }
}
