/** What the pull-down menus do with one input sample, apart from how they draw and undo their highlights. */
module MenuSteps {
  import opened Geometry
  import opened Links
  import opened MenuItems
  import opened TreeWalk

  const DESK_FIXED := 3
  const DESK_OBJECTS := 20
  const ACCESSORIES := 17

  /** A key that matters to menus, or the letter of any other key, blank for none. */
  datatype Key = Escape | Left | Right | Up | Down | Enter | F1 | F10 | Other(letter: char)

  const BLANK := ' '

  /** One input sample: the pointer, or a key that was struck, and the left button. */
  datatype Sample = MouseAt(x: Word, y: Word, held: bool) | Struck(key: Key, held: bool)

  /** What is sent when a menu closes on a pick. */
  datatype Pick = Nothing | Selected(title: int, item: int) | Accessory(title: int, number: int)

  /** A menu bar: titles in order and for each the items of its box, where everything is on the screen, and the shortcut
      letters, blank for none. The first title is the Desk's; its box gets rows of the manager's own, one for each
      accessory. */
  datatype Bar = Bar(titles: seq<int>, boxes: seq<seq<int>>, frames: seq<Rect>, spots: seq<Rect>, letters: seq<char>,
                     separator: int, deskSpots: seq<Rect>, accessoryLetters: seq<char>)

  /** A menu tree of `count` objects with a box for every title. */
  ghost predicate WellBuilt(bar: Bar, count: nat) {
    && |bar.titles| == |bar.boxes| == |bar.frames| > 0 && Distinct(bar.titles)
    && |bar.spots| == |bar.letters| == count && 0 <= bar.separator < count
    && |bar.deskSpots| == DESK_OBJECTS && |bar.accessoryLetters| <= ACCESSORIES
    && (forall i | 0 <= i < |bar.titles| :: 0 <= bar.titles[i] < count)
    && (forall k | 0 <= k < |bar.boxes| :: Distinct(bar.boxes[k]))
    && (forall k, i | 0 <= k < |bar.boxes| && i in bar.boxes[k] :: BoxItem(bar, count, i))
    && bar.boxes[0] != []
  }

  predicate BoxItem(bar: Bar, count: nat, i: int) {
    0 <= i < count && i !in bar.titles
  }

  function DeskRows(bar: Bar): (rows: seq<int>)
    ensures |rows| == |bar.accessoryLetters| + 2 && Distinct(rows)
    ensures forall k | 0 <= k < |rows| :: rows[k] == k + 1
  {
    seq(|bar.accessoryLetters| + 2, i => i + 1)
  }

  lemma DeskRowIs(bar: Bar, i: int)
    ensures i in DeskRows(bar) <==> 1 <= i <= |bar.accessoryLetters| + 2
  {
    if 1 <= i <= |bar.accessoryLetters| + 2 {
      assert DeskRows(bar)[i - 1] == i;
    }
  }

  const PLAIN := Mark(false, false, 0)

  /** The state words of the Desk's own rows: the first is the application's, the second a separator. */
  function DeskMarks(bar: Bar, marks: seq<Mark>): (desk: seq<Mark>)
    ensures |desk| == DESK_OBJECTS
  {
    var information := if |bar.boxes| > 0 && bar.boxes[0] != [] then MarkAt(marks, bar.boxes[0][0]) else PLAIN;
    seq(DESK_OBJECTS, i => PLAIN)[1 := information][2 := MarkAt(marks, bar.separator).(disabled := true)]
  }

  ghost function BoxOf(bar: Bar, title: int): int {
    if title in bar.titles then Place(bar.titles, title) else NIL
  }

  predicate OnDesk(bar: Bar, title: int) {
    |bar.titles| > 0 && title == bar.titles[0]
  }

  /** The items of a title's menu, their state words and where they are. */
  ghost function Items(bar: Bar, title: int): seq<int> {
    if OnDesk(bar, title) then DeskRows(bar)
    else if 0 <= BoxOf(bar, title) < |bar.boxes| then bar.boxes[BoxOf(bar, title)] else []
  }

  function Words(bar: Bar, marks: seq<Mark>, title: int): seq<Mark> {
    if OnDesk(bar, title) then DeskMarks(bar, marks) else marks
  }

  function Spots(bar: Bar, title: int): seq<Rect> {
    if OnDesk(bar, title) then bar.deskSpots else bar.spots
  }

  ghost function FrameOf(bar: Bar, title: int): Rect {
    if OnDesk(bar, title) then (if bar.deskSpots == [] then ZERO else bar.deskSpots[0])
    else if 0 <= BoxOf(bar, title) < |bar.frames| then bar.frames[BoxOf(bar, title)] else ZERO
  }

  predicate Touched(marks: seq<Mark>, spots: seq<Rect>, c: int, x: Word, y: Word) {
    && !MarkAt(marks, c).disabled && 0 <= c < |spots|
    && Inside(spots[c].x, spots[c].y, spots[c].w, spots[c].h, x, y)
  }

  /** The first enabled object of a list that the pointer is on. */
  function FirstTouched(list: seq<int>, marks: seq<Mark>, spots: seq<Rect>, x: Word, y: Word): int {
    if list == [] then NIL
    else if Touched(marks, spots, list[0], x, y) then list[0]
    else FirstTouched(list[1..], marks, spots, x, y)
  }

  /** The first enabled object of a list with a shortcut letter. */
  function FirstLetter(list: seq<int>, marks: seq<Mark>, letters: seq<char>, letter: char): int {
    if list == [] then NIL
    else if !MarkAt(marks, list[0]).disabled && 0 <= list[0] < |letters| && letters[list[0]] == letter then list[0]
    else FirstLetter(list[1..], marks, letters, letter)
  }

  /** The first accessory with a shortcut letter, from number k on. */
  function FirstAccessory(letters: seq<char>, k: nat, letter: char): int
    decreases |letters| - k
  {
    if k >= |letters| then NIL else if letters[k] == letter then k else FirstAccessory(letters, k + 1, letter)
  }

  // The abstract state

  /** The open menu, if any: its title, the item under the highlight, and what earlier samples left. */
  datatype View = Closed
                | Opened(title: int, item: int, armed: int, drag: bool, latched: bool, outside: bool)

  function JustOpened(title: int, drag: bool): (v: View)
    ensures v.Opened?
  {
    Opened(title, NIL, NIL, drag, false, false)
  }

  /** The same menu with the highlight on another item. */
  function With(v: View, item: int): View {
    if v.Opened? then v.(item := item) else v
  }

  /** What a pick of an item sends. */
  function PickOf(bar: Bar, title: int, item: int): Pick {
    if OnDesk(bar, title) && item >= DESK_FIXED then
      (if item - DESK_FIXED < |bar.accessoryLetters| then Accessory(title, item - DESK_FIXED) else Nothing)
    else Selected(title, if OnDesk(bar, title) && |bar.boxes| > 0 && bar.boxes[0] != [] then bar.boxes[0][0] else item)
  }

  /** The state words that stay when a menu closes on a pick: an item's title stays lit, an accessory's does not. */
  function Effect(marks: seq<Mark>, pick: Pick): seq<Mark> {
    match pick
    case Nothing => marks
    case Selected(title, _) => Lit(marks, title)
    case Accessory(title, _) => Unlit(marks, title)
  }

  function Lit(marks: seq<Mark>, i: int): (marks': seq<Mark>)
    ensures |marks'| == |marks|
  {
    if 0 <= i < |marks| then marks[i := marks[i].(selected := true)] else marks
  }

  function Unlit(marks: seq<Mark>, i: int): (marks': seq<Mark>)
    ensures |marks'| == |marks|
  {
    if 0 <= i < |marks| then marks[i := marks[i].(selected := false)] else marks
  }

  // The mouse

  ghost function TitleUnder(bar: Bar, marks: seq<Mark>, x: Word, y: Word): int {
    FirstTouched(bar.titles, marks, bar.spots, x, y)
  }

  ghost function ItemUnder(bar: Bar, marks: seq<Mark>, title: int, x: Word, y: Word): int {
    FirstTouched(Items(bar, title), Words(bar, marks, title), Spots(bar, title), x, y)
  }

  ghost predicate InMenu(bar: Bar, title: int, x: Word, y: Word) {
    var r := FrameOf(bar, title);
    Inside(r.x, r.y, r.w, r.h, x, y)
  }

  /** The open menu after the pointer moved: another one if it is on another title. */
  ghost function Moved(bar: Bar, marks: seq<Mark>, v: View, x: Word, y: Word): (v': View)
    requires v.Opened?
    ensures v'.Opened?
  {
    var t := TitleUnder(bar, marks, x, y);
    var w := if t != NIL && t != v.title then JustOpened(t, false) else v;
    w.(item := ItemUnder(bar, marks, w.title, x, y))
  }

  /** The button went down over the open menu: an item is armed, or the press was outside of everything. */
  ghost function Pressed(v: View, onTitle: bool, inside: bool): (v': View)
    requires v.Opened?
    ensures v'.Opened?
  {
    v.(armed := v.item, outside := v.item == NIL && !onTitle && !inside)
  }

  /** The button went up: on the armed item, or after a drag, that is a pick; on a title or in the box it leaves the
      menu open for good; elsewhere it closes the menu if anything was pressed before. */
  ghost function Released(bar: Bar, v: View, onTitle: bool, inside: bool): (View, Pick)
    requires v.Opened?
  {
    if v.item != NIL && (v.drag || v.armed == v.item) then (Closed, PickOf(bar, v.title, v.item))
    else if !(onTitle || inside) && (v.outside || v.armed != NIL) then (Closed, Nothing)
    else (v.(latched := v.latched || onTitle || inside, drag := false, armed := NIL, outside := false), Nothing)
  }

  /** One pointer sample over an open menu. */
  ghost function Mouse(bar: Bar, marks: seq<Mark>, v: View, x: Word, y: Word, held: bool, pressed: bool, released: bool,
                       begun: bool): (View, Pick)
    requires v.Opened?
  {
    var onTitle := TitleUnder(bar, marks, x, y) != NIL;
    var m := Moved(bar, marks, v, x, y);
    var inside := InMenu(bar, m.title, x, y);
    var p := if pressed && !begun then Pressed(m, onTitle, inside) else m;
    var (r, pick) := if released then Released(bar, p, onTitle, inside) else (p, Nothing);
    if r.Opened? && !held && !r.latched && !r.drag && !onTitle && r.item == NIL && !inside then (Closed, Nothing)
    else (r, pick)
  }

  // The keyboard

  ghost function Step(bar: Bar, marks: seq<Mark>, title: int, item: int, forward: bool): int {
    var items := Enabled(Items(bar, title), Words(bar, marks, title));
    if forward then After(items, item) else Before(items, item)
  }

  ghost function TitleStep(bar: Bar, marks: seq<Mark>, title: int, forward: bool): int {
    var titles := Enabled(bar.titles, marks);
    if forward then After(titles, title) else Before(titles, title)
  }

  /** A menu opened from the keyboard has its first item highlighted. */
  ghost function KeyOpened(bar: Bar, marks: seq<Mark>, title: int): View {
    Opened(title, Step(bar, marks, title, NIL, true), NIL, false, false, false)
  }

  ghost function KeySwitched(bar: Bar, marks: seq<Mark>, v: View, title: int): View
    requires v.Opened?
  {
    if title == NIL || title == v.title then v else KeyOpened(bar, marks, title)
  }

  /** The item with a shortcut letter. On the Desk the first row needs not be enabled. */
  ghost function Shortcut(bar: Bar, marks: seq<Mark>, title: int, letter: char): int {
    if !OnDesk(bar, title) then FirstLetter(Items(bar, title), marks, bar.letters, letter)
    else if |bar.boxes| > 0 && bar.boxes[0] != [] && 0 <= bar.boxes[0][0] < |bar.letters|
            && bar.letters[bar.boxes[0][0]] == letter then 1
    else
      var k := FirstAccessory(bar.accessoryLetters, 0, letter);
      if k == NIL then NIL else k + DESK_FIXED
  }

  function LetterOf(key: Key): char {
    if key.Other? then key.letter else BLANK
  }

  ghost function TitleFor(bar: Bar, marks: seq<Mark>, key: Key): int {
    if key == F10 then TitleStep(bar, marks, NIL, true)
    else if key == F1 then TitleStep(bar, marks, NIL, false)
    else if LetterOf(key) == BLANK then NIL
    else FirstLetter(bar.titles, marks, bar.letters, LetterOf(key))
  }

  /** One key. Without an open menu a title's key opens it; with one, a key that means nothing else closes it. */
  ghost function Keyboard(bar: Bar, marks: seq<Mark>, v: View, key: Key): (View, Pick) {
    match v
    case Closed =>
      var t := TitleFor(bar, marks, key);
      (if t == NIL then Closed else KeyOpened(bar, marks, t), Nothing)
    case Opened(title, item, _, _, _, _) =>
      match key
      case Escape => (Closed, Nothing)
      case Right => (KeySwitched(bar, marks, v, TitleStep(bar, marks, title, true)), Nothing)
      case Left => (KeySwitched(bar, marks, v, TitleStep(bar, marks, title, false)), Nothing)
      case Down => (v.(item := Step(bar, marks, title, item, true)), Nothing)
      case Up => (v.(item := Step(bar, marks, title, item, false)), Nothing)
      case Enter => if item == NIL then (v, Nothing) else (Closed, PickOf(bar, title, item))
      case _ =>
        var i := if LetterOf(key) == BLANK then NIL else Shortcut(bar, marks, title, LetterOf(key));
        (Closed, if i == NIL then Nothing else PickOf(bar, title, i))
  }

  // Runs

  /** One sample, given the button as the sample before left it. */
  ghost function Input(bar: Bar, marks: seq<Mark>, v: View, button: bool, s: Sample): (View, Pick) {
    match s
    case Struck(key, _) => Keyboard(bar, marks, v, key)
    case MouseAt(x, y, held) =>
      var (pressed, released) := (held && !button, !held && button);
      var t := if v.Closed? && pressed then TitleUnder(bar, marks, x, y) else NIL;
      var w := if t != NIL then JustOpened(t, true) else v;
      if w.Closed? then (w, Nothing) else Mouse(bar, marks, w, x, y, held, pressed, released, t != NIL)
  }

  /** What a run of samples ends with: the open menu, the state words from before it, and the picks on the way. */
  datatype Outcome = Outcome(view: View, button: bool, marks: seq<Mark>, picks: seq<Pick>)

  ghost function RunAll(bar: Bar, o: Outcome, samples: seq<Sample>): Outcome
    decreases |samples|
  {
    if samples == [] then o
    else
      var (v, pick) := Input(bar, o.marks, o.view, o.button, samples[0]);
      RunAll(bar, Outcome(v, samples[0].held, Effect(o.marks, pick), o.picks + [pick]), samples[1..])
  }

  /** The words after a series of picks. */
  function Effects(marks: seq<Mark>, picks: seq<Pick>): seq<Mark>
    decreases |picks|
  {
    if picks == [] then marks else Effect(Effects(marks, picks[..|picks| - 1]), picks[|picks| - 1])
  }

  lemma {:induction false} FirstTouchedIn(list: seq<int>, marks: seq<Mark>, spots: seq<Rect>, x: Word, y: Word)
    ensures var c := FirstTouched(list, marks, spots, x, y); c == NIL || (c in list && Touched(marks, spots, c, x, y))
  {
    if list != [] {
      FirstTouchedIn(list[1..], marks, spots, x, y);
    }
  }

  lemma {:induction false} FirstLetterIn(list: seq<int>, marks: seq<Mark>, letters: seq<char>, letter: char)
    ensures var c := FirstLetter(list, marks, letters, letter); c == NIL || (c in list && !MarkAt(marks, c).disabled)
  {
    if list != [] {
      FirstLetterIn(list[1..], marks, letters, letter);
    }
  }

  lemma {:induction false} FirstAccessoryIn(letters: seq<char>, k: nat, letter: char)
    ensures var n := FirstAccessory(letters, k, letter); n == NIL || (k <= n < |letters| && letters[n] == letter)
    decreases |letters| - k
  {
    if k < |letters| {
      FirstAccessoryIn(letters, k + 1, letter);
    }
  }

  lemma StepIn(list: seq<int>, marks: seq<Mark>, c: int)
    ensures var items := Enabled(list, marks);
            && (After(items, c) == NIL || After(items, c) in items)
            && (Before(items, c) == NIL || Before(items, c) in items)
  {
    var items := Enabled(list, marks);
    assert forall k | 0 <= k < |items| :: items[k] in items;
  }

  // What every run keeps

  /** The open menu is one of the bar's, and only an item that is enabled is ever highlighted. */
  ghost predicate Sensible(bar: Bar, marks: seq<Mark>, v: View) {
    v.Opened? ==> v.title in bar.titles
                  && (v.item == NIL || v.item in Enabled(Items(bar, v.title), Words(bar, marks, v.title)))
  }

  lemma MouseSensible(bar: Bar, marks: seq<Mark>, v: View, x: Word, y: Word, held: bool, pressed: bool, released: bool,
                      begun: bool)
    requires v.Opened? && Sensible(bar, marks, v) && |bar.boxes| > 0 && bar.boxes[0] != []
    ensures Sensible(bar, marks, Mouse(bar, marks, v, x, y, held, pressed, released, begun).0)
    ensures Picked(bar, marks, Mouse(bar, marks, v, x, y, held, pressed, released, begun).1)
  {
    var m := Moved(bar, marks, v, x, y);
    FirstTouchedIn(bar.titles, marks, bar.spots, x, y);
    FirstTouchedIn(Items(bar, m.title), Words(bar, marks, m.title), Spots(bar, m.title), x, y);
    PickedItem(bar, marks, m.title, m.item);
  }

  /** A pick is of an enabled item of its title's menu or of an accessory; only the Desk's own first row may be picked,
      by its letter, while it is disabled. */
  ghost predicate Picked(bar: Bar, marks: seq<Mark>, pick: Pick) {
    match pick
    case Nothing => true
    case Selected(title, item) =>
      title in bar.titles && if OnDesk(bar, title) then |bar.boxes| > 0 && bar.boxes[0] != [] && item == bar.boxes[0][0]
                             else item in Enabled(Items(bar, title), marks)
    case Accessory(title, number) => OnDesk(bar, title) && 0 <= number < |bar.accessoryLetters|
  }

  lemma PickedItem(bar: Bar, marks: seq<Mark>, title: int, item: int)
    requires title in bar.titles && |bar.boxes| > 0 && bar.boxes[0] != []
    ensures item in Enabled(Items(bar, title), Words(bar, marks, title)) ==>
              Picked(bar, marks, PickOf(bar, title, item))
  {
    DeskRowIs(bar, item);
  }

  lemma KeyboardSensible(bar: Bar, marks: seq<Mark>, v: View, key: Key)
    requires Sensible(bar, marks, v) && |bar.boxes| > 0 && bar.boxes[0] != []
    ensures Sensible(bar, marks, Keyboard(bar, marks, v, key).0) && Picked(bar, marks, Keyboard(bar, marks, v, key).1)
  {
    hide Enabled, After, Before, FirstLetter, FirstAccessory, Words, Items;
    StepIn(bar.titles, marks, if v.Opened? then v.title else NIL);
    var letter := LetterOf(key);
    FirstLetterIn(bar.titles, marks, bar.letters, letter);
    EnabledIn(bar.titles, marks);
    var to := if v.Opened? then TitleStep(bar, marks, v.title, key == Right) else TitleFor(bar, marks, key);
    StepIn(Items(bar, to), Words(bar, marks, to), NIL);
    if v.Opened? {
      StepIn(Items(bar, v.title), Words(bar, marks, v.title), v.item);
      PickedItem(bar, marks, v.title, v.item);
      ShortcutPicked(bar, marks, v.title, letter);
    }
  }

  lemma EnabledIn(list: seq<int>, marks: seq<Mark>)
    ensures forall c | c in Enabled(list, marks) :: c in list
  {
  }

  lemma ShortcutPicked(bar: Bar, marks: seq<Mark>, title: int, letter: char)
    requires title in bar.titles && |bar.boxes| > 0 && bar.boxes[0] != []
    ensures var i := Shortcut(bar, marks, title, letter); i != NIL ==> Picked(bar, marks, PickOf(bar, title, i))
  {
    FirstLetterIn(Items(bar, title), marks, bar.letters, letter);
    FirstAccessoryIn(bar.accessoryLetters, 0, letter);
  }

  /** Every sample keeps the state sensible, and what it picks may be picked. */
  lemma InputSensible(bar: Bar, marks: seq<Mark>, v: View, button: bool, s: Sample)
    requires Sensible(bar, marks, v) && |bar.boxes| > 0 && bar.boxes[0] != []
    ensures Sensible(bar, marks, Input(bar, marks, v, button, s).0)
            && Picked(bar, marks, Input(bar, marks, v, button, s).1)
  {
    hide Mouse, Keyboard, FirstTouched, Enabled, Items, Words;
    match s {
      case Struck(key, _) => KeyboardSensible(bar, marks, v, key);
      case MouseAt(x, y, held) =>
        var t := if v.Closed? && held && !button then TitleUnder(bar, marks, x, y) else NIL;
        FirstTouchedIn(bar.titles, marks, bar.spots, x, y);
        var w := if t != NIL then JustOpened(t, true) else v;
        if w.Opened? {
          MouseSensible(bar, marks, w, x, y, held, held && !button, !held && button, t != NIL);
        }
    }
  }

  /** Two versions of the state words differ only in the SELECTED bits of titles. */
  ghost predicate OnlyTitles(bar: Bar, a: seq<Mark>, b: seq<Mark>) {
    && |a| == |b|
    && forall i | 0 <= i < |a| :: a[i] == b[i] || (i in bar.titles && a[i] == b[i].(selected := a[i].selected))
  }

  /** What is enabled does not depend on highlights. */
  lemma {:induction false} EnabledSame(bar: Bar, list: seq<int>, a: seq<Mark>, b: seq<Mark>)
    requires |a| == |b| && forall i | 0 <= i < |a| :: a[i].disabled == b[i].disabled
    ensures Enabled(list, a) == Enabled(list, b)
  {
    if list != [] {
      EnabledSame(bar, list[1..], a, b);
    }
  }

  /** Highlights do not disable anything. */
  ghost predicate SameDisabled(a: seq<Mark>, b: seq<Mark>) {
    |a| == |b| && forall i | 0 <= i < |a| :: a[i].disabled == b[i].disabled
  }

  lemma {:induction false} SearchesSame(bar: Bar, list: seq<int>, a: seq<Mark>, b: seq<Mark>, spots: seq<Rect>, x: Word,
                                        y: Word, letters: seq<char>, letter: char)
    requires SameDisabled(a, b)
    ensures FirstTouched(list, a, spots, x, y) == FirstTouched(list, b, spots, x, y)
    ensures FirstLetter(list, a, letters, letter) == FirstLetter(list, b, letters, letter)
    ensures Enabled(list, a) == Enabled(list, b)
  {
    if list != [] {
      SearchesSame(bar, list[1..], a, b, spots, x, y, letters, letter);
    }
  }

  lemma EffectOnlyTitles(bar: Bar, marks: seq<Mark>, pick: Pick, title: int)
    requires Picked(bar, marks, pick)
    ensures OnlyTitles(bar, Effect(marks, pick), marks)
  {
  }

  lemma OnlyTitlesOn(bar: Bar, a: seq<Mark>, b: seq<Mark>, c: seq<Mark>)
    requires OnlyTitles(bar, a, b) && OnlyTitles(bar, b, c)
    ensures OnlyTitles(bar, a, c)
  {
  }

  /** A pick does not change which items may be highlighted. */
  lemma EffectSensible(bar: Bar, marks: seq<Mark>, v: View, pick: Pick, count: nat)
    requires WellBuilt(bar, count) && count == |marks| && Sensible(bar, marks, v) && Picked(bar, marks, pick)
    ensures Sensible(bar, Effect(marks, pick), v)
  {
    hide Enabled, WellBuilt;
    if v.Opened? {
      var marks' := Effect(marks, pick);
      WordsSame(bar, marks, marks', v.title);
      EnabledSame(bar, Items(bar, v.title), Words(bar, marks, v.title), Words(bar, marks', v.title));
    }
  }

  lemma WordsSame(bar: Bar, a: seq<Mark>, b: seq<Mark>, title: int)
    requires |a| == |b| && forall i | 0 <= i < |a| :: a[i].disabled == b[i].disabled
    ensures |Words(bar, a, title)| == |Words(bar, b, title)|
    ensures forall i | 0 <= i < |Words(bar, a, title)| ::
              Words(bar, a, title)[i].disabled == Words(bar, b, title)[i].disabled
  {
  }

  /** Over every run of samples: the state stays sensible; the pre-open state words change by the picks on the way and
      by nothing else, so only SELECTED bits of titles ever change in them. */
  lemma {:induction false} RunKeeps(bar: Bar, o: Outcome, samples: seq<Sample>, start: seq<Mark>)
    requires WellBuilt(bar, |o.marks|) && Sensible(bar, o.marks, o.view) && o.marks == Effects(start, o.picks)
    requires OnlyTitles(bar, o.marks, start)
    ensures var r := RunAll(bar, o, samples);
            && Sensible(bar, r.marks, r.view) && |r.picks| == |o.picks| + |samples| && r.picks[..|o.picks|] == o.picks
            && r.marks == Effects(start, r.picks) && OnlyTitles(bar, r.marks, start)
    decreases |samples|
  {
    hide Input, Enabled, Items, Words, Sensible, OnlyTitles, Effect;
    BarParts(bar, |o.marks|);
    if samples != [] {
      var (v, pick) := Input(bar, o.marks, o.view, o.button, samples[0]);
      InputSensible(bar, o.marks, o.view, o.button, samples[0]);
      EffectSensible(bar, o.marks, v, pick, |o.marks|);
      EffectOnlyTitles(bar, o.marks, pick, NIL);
      OnlyTitlesOn(bar, Effect(o.marks, pick), o.marks, start);
      assert (o.picks + [pick])[..|o.picks|] == o.picks;
      OnlyTitlesSize(bar, Effect(o.marks, pick), o.marks);
      var next := Outcome(v, samples[0].held, Effect(o.marks, pick), o.picks + [pick]);
      RunKeeps(bar, next, samples[1..], start);
      var r := RunAll(bar, next, samples[1..]);
      assert r.picks[..|o.picks|] == r.picks[..|next.picks|][..|o.picks|];
    }
  }

  lemma OnlyTitlesSize(bar: Bar, a: seq<Mark>, b: seq<Mark>)
    requires OnlyTitles(bar, a, b)
    ensures |a| == |b|
  {
  }

  lemma BarParts(bar: Bar, count: nat)
    requires WellBuilt(bar, count)
    ensures |bar.boxes| > 0 && bar.boxes[0] != []
  {
  }

  /** Without a pick nothing changes. */
  lemma {:induction false} NoPicks(marks: seq<Mark>, picks: seq<Pick>)
    requires forall i | 0 <= i < |picks| :: picks[i] == Nothing
    ensures Effects(marks, picks) == marks
  {
    if picks != [] {
      NoPicks(marks, picks[..|picks| - 1]);
    }
  }

  /** A title is left lit by the last pick from its menu, as it was when there was none. */
  ghost function LitBy(picks: seq<Pick>, title: int, was: bool): bool
    decreases |picks|
  {
    if picks == [] then was
    else
      match picks[|picks| - 1]
      case Selected(t, _) => t == title || LitBy(picks[..|picks| - 1], title, was)
      case Accessory(t, _) => t != title && LitBy(picks[..|picks| - 1], title, was)
      case Nothing => LitBy(picks[..|picks| - 1], title, was)
  }

  lemma {:induction false} EffectsAre(marks: seq<Mark>, picks: seq<Pick>, i: int)
    requires 0 <= i < |marks|
    ensures |Effects(marks, picks)| == |marks|
    ensures Effects(marks, picks)[i] == marks[i].(selected := LitBy(picks, i, marks[i].selected))
    decreases |picks|
  {
    if picks != [] {
      EffectsAre(marks, picks[..|picks| - 1], i);
    }
  }
}
