/** What a user gets from the menus: which runs of samples pick an item, go to another menu, or leave. */
module MenuRuns {
  import opened Geometry
  import opened Links
  import opened MenuItems
  import opened MenuSteps
  import opened TreeWalk

  /** What a run has come to after one more sample. */
  ghost function After1(bar: Bar, o: Outcome, s: Sample): Outcome {
    var (v, pick) := Input(bar, o.marks, o.view, o.button, s);
    Outcome(v, s.held, Effect(o.marks, pick), o.picks + [pick])
  }

  lemma RunCons(bar: Bar, o: Outcome, s: Sample, rest: seq<Sample>)
    ensures RunAll(bar, o, [s] + rest) == RunAll(bar, After1(bar, o, s), rest)
  {
    assert ([s] + rest)[1..] == rest;
  }

  lemma {:induction false} RunConcat(bar: Bar, o: Outcome, first: seq<Sample>, rest: seq<Sample>)
    ensures RunAll(bar, o, first + rest) == RunAll(bar, RunAll(bar, o, first), rest)
    decreases |first|
  {
    if first == [] {
      assert first + rest == rest;
    } else {
      assert (first + rest)[1..] == first[1..] + rest;
      RunConcat(bar, After1(bar, o, first[0]), first[1..], rest);
    }
  }

  /** The pointer is on this item of an open menu, or with NIL on none of its items, and not on another title. */
  ghost predicate On(bar: Bar, marks: seq<Mark>, title: int, x: Word, y: Word, item: int) {
    && (TitleUnder(bar, marks, x, y) == NIL || TitleUnder(bar, marks, x, y) == title)
    && ItemUnder(bar, marks, title, x, y) == item
  }

  /** The pointer is on no title, on no item of the menu and not in its box. */
  ghost predicate Off(bar: Bar, marks: seq<Mark>, title: int, x: Word, y: Word) {
    && TitleUnder(bar, marks, x, y) == NIL && ItemUnder(bar, marks, title, x, y) == NIL
    && !InMenu(bar, title, x, y)
  }

  /** The searches find the first enabled object the pointer is on. */
  lemma {:induction false} FirstTouchedIs(list: seq<int>, marks: seq<Mark>, spots: seq<Rect>, x: Word, y: Word, k: nat)
    requires forall i | 0 <= i < k && i < |list| :: !Touched(marks, spots, list[i], x, y)
    ensures k < |list| && Touched(marks, spots, list[k], x, y) ==> FirstTouched(list, marks, spots, x, y) == list[k]
    ensures k >= |list| ==> FirstTouched(list, marks, spots, x, y) == NIL
  {
    if list != [] && k > 0 {
      assert forall i | 0 <= i < k - 1 && i < |list[1..]| :: list[1..][i] == list[i + 1];
      FirstTouchedIs(list[1..], marks, spots, x, y, k - 1);
    }
  }

  lemma {:induction false} FirstLetterIs(list: seq<int>, marks: seq<Mark>, letters: seq<char>, letter: char, k: nat)
    requires forall i | 0 <= i < k && i < |list| :: !Lettered(marks, letters, letter, list[i])
    ensures k < |list| && Lettered(marks, letters, letter, list[k]) ==>
              FirstLetter(list, marks, letters, letter) == list[k]
    ensures k >= |list| ==> FirstLetter(list, marks, letters, letter) == NIL
  {
    if list != [] && k > 0 {
      assert forall i | 0 <= i < k - 1 && i < |list[1..]| :: list[1..][i] == list[i + 1];
      FirstLetterIs(list[1..], marks, letters, letter, k - 1);
    }
  }

  /** An enabled object with this shortcut letter. */
  ghost predicate Lettered(marks: seq<Mark>, letters: seq<char>, letter: char, c: int) {
    !MarkAt(marks, c).disabled && 0 <= c < |letters| && letters[c] == letter
  }

  // The mouse

  /** Pressing on a title opens its menu. */
  lemma PressOpens(bar: Bar, o: Outcome, x: Word, y: Word, t: int, i: int)
    requires o.view == Closed && !o.button && t != NIL && TitleUnder(bar, o.marks, x, y) == t
    requires ItemUnder(bar, o.marks, t, x, y) == i
    ensures After1(bar, o, MouseAt(x, y, true))
         == Outcome(Opened(t, i, NIL, true, false, false), true, o.marks, o.picks + [Nothing])
  {
  }

  /** Places the pointer goes through with the button held. */
  datatype Spot = Spot(x: Word, y: Word)

  function Held(path: seq<Spot>): seq<Sample> {
    seq(|path|, k requires 0 <= k < |path| => MouseAt(path[k].x, path[k].y, true))
  }

  /** Holding the button and keeping off other titles moves the highlight and nothing else. */
  lemma {:induction false} HeldMoves(bar: Bar, o: Outcome, path: seq<Spot>)
    requires o.view.Opened? && o.button
    requires forall k | 0 <= k < |path| ::
               TitleUnder(bar, o.marks, path[k].x, path[k].y) == NIL
               || TitleUnder(bar, o.marks, path[k].x, path[k].y) == o.view.title
    ensures var r := RunAll(bar, o, Held(path));
            && r.view.Opened? && r.view == o.view.(item := r.view.item) && r.button && r.marks == o.marks
            && r.picks == o.picks + seq(|path|, _ => Nothing)
    decreases |path|
  {
    if path == [] {
      assert Held(path) == [] && seq(|path|, _ => Nothing) == [];
    } else {
      var next := After1(bar, o, MouseAt(path[0].x, path[0].y, true));
      assert Held(path) == [MouseAt(path[0].x, path[0].y, true)] + Held(path[1..]);
      RunCons(bar, o, MouseAt(path[0].x, path[0].y, true), Held(path[1..]));
      HeldMoves(bar, next, path[1..]);
      assert seq(|path|, _ => Nothing) == [Nothing] + seq(|path| - 1, _ => Nothing);
      assert o.picks + ([Nothing] + seq(|path| - 1, _ => Nothing))
             == o.picks + [Nothing] + seq(|path| - 1, _ => Nothing);
    }
  }

  /** Pressed on a title, dragged anywhere but over other titles, and released on an enabled item: that item is picked,
      once, and the menu closes. */
  lemma DragPicks(bar: Bar, marks: seq<Mark>, at: Spot, path: seq<Spot>, end: Spot, t: int, i: int)
    requires t != NIL && i != NIL && TitleUnder(bar, marks, at.x, at.y) == t && On(bar, marks, t, end.x, end.y, i)
    requires forall k | 0 <= k < |path| ::
               TitleUnder(bar, marks, path[k].x, path[k].y) == NIL || TitleUnder(bar, marks, path[k].x, path[k].y) == t
    ensures var run := [MouseAt(at.x, at.y, true)] + Held(path) + [MouseAt(end.x, end.y, false)];
            RunAll(bar, Outcome(Closed, false, marks, []), run)
            == Outcome(Closed, false, Effect(marks, PickOf(bar, t, i)),
                       seq(|path| + 1, _ => Nothing) + [PickOf(bar, t, i)])
  {
    DragEnds(bar, marks, at, path, end, t);
  }

  /** Any such run ends as one sample, the release, decides. */
  lemma DragEnds(bar: Bar, marks: seq<Mark>, at: Spot, path: seq<Spot>, end: Spot, t: int)
    requires t != NIL && TitleUnder(bar, marks, at.x, at.y) == t
    requires forall k | 0 <= k < |path| ::
               TitleUnder(bar, marks, path[k].x, path[k].y) == NIL || TitleUnder(bar, marks, path[k].x, path[k].y) == t
    ensures var run := [MouseAt(at.x, at.y, true)] + Held(path) + [MouseAt(end.x, end.y, false)];
            exists j :: RunAll(bar, Outcome(Closed, false, marks, []), run)
                        == After1(bar, Outcome(Opened(t, j, NIL, true, false, false), true, marks,
                                               seq(|path| + 1, _ => Nothing)), MouseAt(end.x, end.y, false))
  {
    hide Input;
    var o := Outcome(Closed, false, marks, []);
    var (press, release) := (MouseAt(at.x, at.y, true), MouseAt(end.x, end.y, false));
    PressOpens(bar, o, at.x, at.y, t, ItemUnder(bar, marks, t, at.x, at.y));
    var o1 := After1(bar, o, press);
    HeldMoves(bar, o1, path);
    var o2 := RunAll(bar, o1, Held(path));
    assert [press] + Held(path) + [release] == [press] + (Held(path) + [release]);
    RunCons(bar, o, press, Held(path) + [release]);
    RunConcat(bar, o1, Held(path), [release]);
    RunCons(bar, o2, release, []);
    assert [release] + [] == [release];
    assert seq(|path| + 1, _ => Nothing) == [] + [Nothing] + seq(|path|, _ => Nothing);
  }

  /** Released off everything, the run closes the menu without a pick. */
  lemma DragLeaves(bar: Bar, marks: seq<Mark>, at: Spot, path: seq<Spot>, end: Spot, t: int)
    requires t != NIL && TitleUnder(bar, marks, at.x, at.y) == t && Off(bar, marks, t, end.x, end.y)
    requires forall k | 0 <= k < |path| ::
               TitleUnder(bar, marks, path[k].x, path[k].y) == NIL || TitleUnder(bar, marks, path[k].x, path[k].y) == t
    ensures var run := [MouseAt(at.x, at.y, true)] + Held(path) + [MouseAt(end.x, end.y, false)];
            RunAll(bar, Outcome(Closed, false, marks, []), run)
            == Outcome(Closed, false, marks, seq(|path| + 1, _ => Nothing) + [Nothing])
  {
    DragEnds(bar, marks, at, path, end, t);
  }

  /** Released on its title, or in its box but on no item, it leaves the menu open without the button. */
  lemma DragLatches(bar: Bar, marks: seq<Mark>, at: Spot, path: seq<Spot>, end: Spot, t: int)
    requires t != NIL && TitleUnder(bar, marks, at.x, at.y) == t && On(bar, marks, t, end.x, end.y, NIL)
    requires TitleUnder(bar, marks, end.x, end.y) == t || InMenu(bar, t, end.x, end.y)
    requires forall k | 0 <= k < |path| ::
               TitleUnder(bar, marks, path[k].x, path[k].y) == NIL || TitleUnder(bar, marks, path[k].x, path[k].y) == t
    ensures var run := [MouseAt(at.x, at.y, true)] + Held(path) + [MouseAt(end.x, end.y, false)];
            RunAll(bar, Outcome(Closed, false, marks, []), run)
            == Outcome(Opened(t, NIL, NIL, false, true, false), false, marks,
                       seq(|path| + 1, _ => Nothing) + [Nothing])
  {
    DragEnds(bar, marks, at, path, end, t);
  }

  /** A menu that stays open: latched, and nothing pressed. */
  function Latched(t: int, i: int): View {
    Opened(t, i, NIL, false, true, false)
  }

  /** Pressed and released on items of a latched menu: the same one is picked, and two different ones pick nothing. */
  lemma ClickPicks(bar: Bar, o: Outcome, t: int, h: int, down: Spot, up: Spot, i: int, j: int)
    requires o.view == Latched(t, h) && !o.button && i != NIL && j != NIL
    requires On(bar, o.marks, t, down.x, down.y, i) && On(bar, o.marks, t, up.x, up.y, j)
    ensures var r := RunAll(bar, o, [MouseAt(down.x, down.y, true), MouseAt(up.x, up.y, false)]);
            if i == j
            then r == Outcome(Closed, false, Effect(o.marks, PickOf(bar, t, i)), o.picks + [Nothing, PickOf(bar, t, i)])
            else r.marks == o.marks && r.picks == o.picks + [Nothing, Nothing]
                 && (InMenu(bar, t, up.x, up.y) ==> r.view == Latched(t, j))
  {
    hide PickOf;
    var (press, release) := (MouseAt(down.x, down.y, true), MouseAt(up.x, up.y, false));
    var o1 := After1(bar, o, press);
    assert o1 == Outcome(Opened(t, i, i, false, true, false), true, o.marks, o.picks + [Nothing]);
    TwoSamples(bar, o, press, release);
  }

  lemma TwoSamples(bar: Bar, o: Outcome, first: Sample, second: Sample)
    ensures RunAll(bar, o, [first, second]) == After1(bar, After1(bar, o, first), second)
  {
    hide Input;
    assert [first, second] == [first] + [second] && [second] == [second] + [];
    RunCons(bar, o, first, [second]);
    RunCons(bar, After1(bar, o, first), second, []);
  }

  /** The pointer on another title takes the menu there, and with it the drag ends: a release on an item picks
      nothing. */
  lemma CrossingSwitches(bar: Bar, o: Outcome, x: Word, y: Word, t: int, held: bool)
    requires o.view.Opened? && o.button == held && t != NIL && t != o.view.title
    requires TitleUnder(bar, o.marks, x, y) == t
    ensures After1(bar, o, MouseAt(x, y, held))
         == Outcome(Opened(t, ItemUnder(bar, o.marks, t, x, y), NIL, false, false, false), held, o.marks,
                    o.picks + [Nothing])
  {
  }

  /** What a pick sends: the Desk's first row is the application's, its rows from the third on are the accessories, and
      any other item is itself. */
  lemma PickMeans(bar: Bar, t: int, i: int)
    requires |bar.titles| > 0 && |bar.boxes| > 0 && bar.boxes[0] != [] && i in Items(bar, t)
    ensures t != bar.titles[0] ==> PickOf(bar, t, i) == Selected(t, i)
    ensures t == bar.titles[0] && i == 1 ==> PickOf(bar, t, i) == Selected(t, bar.boxes[0][0])
    ensures t == bar.titles[0] && i >= 3 ==>
              0 <= i - 3 < |bar.accessoryLetters| && PickOf(bar, t, i) == Accessory(t, i - 3)
  {
  }

  // The keyboard

  function Keys(key: Key, n: nat): seq<Sample> {
    seq(n, _ => Struck(key, false))
  }

  function Nothings(n: nat): seq<Pick> {
    seq(n, _ => Nothing)
  }

  lemma KeysMore(bar: Bar, o: Outcome, key: Key, n: nat)
    requires n > 0
    ensures RunAll(bar, o, Keys(key, n)) == RunAll(bar, After1(bar, o, Struck(key, false)), Keys(key, n - 1))
    ensures Nothings(n) == [Nothing] + Nothings(n - 1)
  {
    assert Keys(key, n) == [Struck(key, false)] + Keys(key, n - 1);
    RunCons(bar, o, Struck(key, false), Keys(key, n - 1));
  }

  ghost function Choices(bar: Bar, marks: seq<Mark>, t: int): seq<int> {
    Enabled(Items(bar, t), Words(bar, marks, t))
  }

  lemma ItemsDistinct(bar: Bar, t: int)
    requires WellBuilt(bar, |bar.spots|)
    ensures Distinct(Items(bar, t)) && Distinct(bar.titles) && |bar.titles| > 0
  {
  }

  lemma {:induction false} AfterFirst(items: seq<int>, c: int, n: nat)
    ensures AfterMany(items, After(items, c), n) == AfterMany(items, c, n + 1)
  {
    hide After;
    if n == 0 {
      assert AfterMany(items, c, 0) == c;
    } else {
      AfterFirst(items, c, n - 1);
    }
  }

  lemma DownOnce(bar: Bar, o: Outcome)
    requires o.view.Opened?
    ensures var items := Choices(bar, o.marks, o.view.title);
            After1(bar, o, Struck(Down, false))
            == Outcome(o.view.(item := After(items, o.view.item)), false, o.marks, o.picks + [Nothing])
  {
  }

  lemma {:induction false} DownsStep(bar: Bar, o: Outcome, n: nat)
    requires o.view.Opened? && !o.button
    ensures var items := Choices(bar, o.marks, o.view.title);
            RunAll(bar, o, Keys(Down, n))
            == Outcome(o.view.(item := AfterMany(items, o.view.item, n)), false, o.marks, o.picks + Nothings(n))
    decreases n
  {
    hide After, Choices, After1;
    var items := Choices(bar, o.marks, o.view.title);
    if n == 0 {
      assert Keys(Down, n) == [] && Nothings(n) == [] && o.picks + [] == o.picks;
    } else {
      DownOnce(bar, o);
      KeysMore(bar, o, Down, n);
      DownsStep(bar, After1(bar, o, Struck(Down, false)), n - 1);
      AfterFirst(items, o.view.item, n - 1);
      assert o.picks + ([Nothing] + Nothings(n - 1)) == o.picks + [Nothing] + Nothings(n - 1);
    }
  }

  /** n times Down moves the highlight n enabled items on, going round. */
  lemma Downs(bar: Bar, o: Outcome, n: nat)
    requires WellBuilt(bar, |bar.spots|) && o.view.Opened? && !o.button
    requires o.view.item in Choices(bar, o.marks, o.view.title)
    ensures var (items, r) := (Choices(bar, o.marks, o.view.title), RunAll(bar, o, Keys(Down, n)));
            r == Outcome(o.view.(item := items[(Place(items, o.view.item) + n) % |items|]), false, o.marks,
                         o.picks + Nothings(n))
  {
    hide Items, Words, Place, RunAll, AfterMany;
    ItemsDistinct(bar, o.view.title);
    StepsGoRound(Items(bar, o.view.title), Words(bar, o.marks, o.view.title), o.view.item, n);
    DownsStep(bar, o, n);
  }

  /** Down, or Up, from a menu without a highlight goes to the first, or last, enabled item. */
  lemma FirstStep(bar: Bar, o: Outcome)
    requires o.view.Opened? && o.view.item == NIL && Choices(bar, o.marks, o.view.title) != []
    requires forall i | i in Items(bar, o.view.title) :: i != NIL
    ensures var items := Choices(bar, o.marks, o.view.title);
            && After1(bar, o, Struck(Down, false)).view == o.view.(item := items[0])
            && After1(bar, o, Struck(Up, false)).view == o.view.(item := items[|items| - 1])
  {
  }

  /** Down n times and Enter: the n-th enabled item on, going round, is picked and the menu closes. */
  lemma DownsEnter(bar: Bar, o: Outcome, n: nat)
    requires WellBuilt(bar, |bar.spots|) && o.view.Opened? && !o.button && NIL !in Items(bar, o.view.title)
    requires o.view.item in Choices(bar, o.marks, o.view.title)
    ensures var items := Choices(bar, o.marks, o.view.title);
            var pick := PickOf(bar, o.view.title, items[(Place(items, o.view.item) + n) % |items|]);
            RunAll(bar, o, Keys(Down, n) + [Struck(Enter, false)])
            == Outcome(Closed, false, Effect(o.marks, pick), o.picks + Nothings(n) + [pick])
  {
    hide Items, Words, PickOf, RunAll, Place, Enabled, WellBuilt;
    var r := RunAll(bar, o, Keys(Down, n));
    Downs(bar, o, n);
    RunNone(bar, After1(bar, r, Struck(Enter, false)));
    RunConcat(bar, o, Keys(Down, n), [Struck(Enter, false)]);
    RunCons(bar, r, Struck(Enter, false), []);
    assert [Struck(Enter, false)] + [] == [Struck(Enter, false)];
    var items := Choices(bar, o.marks, o.view.title);
    assert items[(Place(items, o.view.item) + n) % |items|] in items;
  }

  lemma RunNone(bar: Bar, o: Outcome)
    ensures RunAll(bar, o, []) == o
  {
  }

  /** Up undoes Down and Down undoes Up. */
  lemma UpDown(bar: Bar, o: Outcome)
    requires WellBuilt(bar, |bar.spots|) && o.view.Opened? && !o.button
    requires o.view.item in Choices(bar, o.marks, o.view.title)
    ensures RunAll(bar, o, [Struck(Down, false), Struck(Up, false)]) == o.(picks := o.picks + [Nothing, Nothing])
    ensures RunAll(bar, o, [Struck(Up, false), Struck(Down, false)]) == o.(picks := o.picks + [Nothing, Nothing])
  {
    hide Enabled, Items, Words, WellBuilt, After, Before;
    ItemsDistinct(bar, o.view.title);
    StepsInverse(Items(bar, o.view.title), Words(bar, o.marks, o.view.title), o.view.item);
    TwoSamples(bar, o, Struck(Down, false), Struck(Up, false));
    TwoSamples(bar, o, Struck(Up, false), Struck(Down, false));
  }

  /** A menu just opened by a key: its first enabled item is highlighted, if it has any. */
  ghost predicate OpenedFirst(bar: Bar, marks: seq<Mark>, v: View, t: int) {
    var items := Choices(bar, marks, t);
    v == Opened(t, if items == [] then NIL else items[0], NIL, false, false, false)
  }

  /** Right goes to the next enabled title, Left to the one before, going round; a lone title stays open as it is. */
  lemma LeftRight(bar: Bar, o: Outcome, k: nat)
    requires WellBuilt(bar, |bar.spots|) && o.view.Opened? && (forall t | t in bar.titles :: NIL !in Items(bar, t))
    requires var titles := Enabled(bar.titles, o.marks); k < |titles| && o.view.title == titles[k]
    ensures var titles := Enabled(bar.titles, o.marks);
            var (r, l) := (After1(bar, o, Struck(Right, false)), After1(bar, o, Struck(Left, false)));
            && r.marks == l.marks == o.marks && r.picks == l.picks == o.picks + [Nothing]
            && (|titles| == 1 ==> r.view == l.view == o.view)
            && (|titles| > 1 ==> OpenedFirst(bar, o.marks, r.view, titles[if k + 1 < |titles| then k + 1 else 0])
                                 && OpenedFirst(bar, o.marks, l.view, titles[if k > 0 then k - 1 else |titles| - 1]))
  {
    hide Items, Words, WellBuilt, Enabled;
    var titles := Enabled(bar.titles, o.marks);
    ItemsDistinct(bar, o.view.title);
    EnabledDistinct(bar.titles, o.marks);
    PlaceIs(titles, k);
    assert forall j | 0 <= j < |titles| :: titles[j] in titles && titles[j] in bar.titles;
    forall t | t in titles
      ensures OpenedFirst(bar, o.marks, KeyOpened(bar, o.marks, t), t)
    {
      KeyOpensFirst(bar, o.marks, t);
    }
  }

  lemma KeyOpensFirst(bar: Bar, marks: seq<Mark>, t: int)
    requires NIL !in Items(bar, t)
    ensures OpenedFirst(bar, marks, KeyOpened(bar, marks, t), t)
  {
    hide Items, Words, Enabled;
    EnabledIn(Items(bar, t), Words(bar, marks, t));
  }

  /** F10 opens the first enabled title, F1 the last one, and a letter the first enabled title with it. */
  lemma KeysOpen(bar: Bar, o: Outcome, key: Key)
    requires WellBuilt(bar, |bar.spots|) && o.view == Closed && (forall t | t in bar.titles :: NIL !in Items(bar, t))
    ensures var titles := Enabled(bar.titles, o.marks);
            var r := After1(bar, o, Struck(key, false));
            && r.marks == o.marks && r.picks == o.picks + [Nothing]
            && (key == F10 && titles != [] ==> OpenedFirst(bar, o.marks, r.view, titles[0]))
            && (key == F1 && titles != [] ==> OpenedFirst(bar, o.marks, r.view, titles[|titles| - 1]))
            && (key.Other? && key.letter != ' ' ==>
                  var t := FirstLetter(bar.titles, o.marks, bar.letters, key.letter);
                  if t == NIL then r.view == Closed else OpenedFirst(bar, o.marks, r.view, t))
            && (key in {Escape, Left, Right, Up, Down, Enter, Other(' ')} ==> r.view == Closed)
            && (key in {F1, F10} && titles == [] ==> r.view == Closed)
  {
    hide Items, Words, Enabled, FirstLetter, OpenedFirst, WellBuilt;
    BarTitles(bar);
    EnabledAt(bar.titles, o.marks);
    FirstLetterIn(bar.titles, o.marks, bar.letters, LetterOf(key));
    forall t | t in bar.titles
      ensures OpenedFirst(bar, o.marks, KeyOpened(bar, o.marks, t), t)
    {
      KeyOpensFirst(bar, o.marks, t);
    }
  }

  lemma EnabledAt(list: seq<int>, marks: seq<Mark>)
    ensures forall j | 0 <= j < |Enabled(list, marks)| :: Enabled(list, marks)[j] in list
  {
    var items := Enabled(list, marks);
    forall j | 0 <= j < |items|
      ensures items[j] in list
    {
      assert items[j] in items;
    }
  }

  lemma BarTitles(bar: Bar)
    requires WellBuilt(bar, |bar.spots|)
    ensures NIL !in bar.titles
  {
  }

  /** Escape leaves an open menu without a pick, and so does a key that is no letter. */
  lemma KeysLeave(bar: Bar, o: Outcome, key: Key)
    requires o.view.Opened? && key in {Escape, F1, F10, Other(' ')}
    ensures After1(bar, o, Struck(key, false)) == Outcome(Closed, false, o.marks, o.picks + [Nothing])
  {
  }

  /** A letter picks the first enabled item with it, or leaves; on the Desk it picks the first row, enabled or not, if
      the application's item has it, and else the first accessory with it. */
  lemma LetterPicks(bar: Bar, o: Outcome, letter: char)
    requires WellBuilt(bar, |bar.spots|) && o.view.Opened? && letter != ' '
    ensures var (r, t, own) := (After1(bar, o, Struck(Other(letter), false)), o.view.title, bar.boxes[0][0]);
            var i := FirstLetter(Items(bar, t), o.marks, bar.letters, letter);
            var k := FirstAccessory(bar.accessoryLetters, 0, letter);
            var pick := if t == bar.titles[0] then
                          (if 0 <= own < |bar.letters| && bar.letters[own] == letter then Selected(t, own)
                           else if k == NIL then Nothing else Accessory(t, k))
                        else if i == NIL then Nothing else Selected(t, i);
            r == Outcome(Closed, false, Effect(o.marks, pick), o.picks + [pick])
  {
    hide Items, FirstLetter;
    FirstAccessoryIn(bar.accessoryLetters, 0, letter);
    assert bar.boxes[0][0] in bar.boxes[0];
    assert BoxItem(bar, |bar.spots|, bar.boxes[0][0]);
  }

  /** The first accessory with the letter is found. */
  lemma {:induction false} FirstAccessoryIs(letters: seq<char>, k: nat, letter: char)
    ensures var n := FirstAccessory(letters, k, letter);
            if n == NIL then letter !in letters[if k < |letters| then k else |letters|..]
            else k <= n < |letters| && letters[n] == letter && letter !in letters[k..n]
    decreases |letters| - k
  {
    if k < |letters| {
      FirstAccessoryIs(letters, k + 1, letter);
      var n := FirstAccessory(letters, k, letter);
      if letters[k] != letter {
        assert letters[k..] == [letters[k]] + letters[k + 1..];
        assert n != NIL ==> letters[k..n] == [letters[k]] + letters[k + 1..n];
      }
    }
  }

  // The Desk's own rows

  /** The first row is the application's first item, the second the separator and disabled, all others are plain. */
  lemma DeskMeans(bar: Bar, marks: seq<Mark>)
    requires WellBuilt(bar, |marks|)
    ensures var (desk, own) := (DeskMarks(bar, marks), bar.boxes[0][0]);
            && |desk| == 20 && 0 <= own < |marks| && desk[1] == marks[own]
            && desk[2] == marks[bar.separator].(disabled := true)
            && (forall i | 0 <= i < 20 && i != 1 && i != 2 :: desk[i] == Mark(false, false, 0))
            && forall i :: i in Items(bar, bar.titles[0]) <==> 1 <= i <= |bar.accessoryLetters| + 2
  {
    assert bar.boxes[0][0] in bar.boxes[0];
    assert BoxItem(bar, |marks|, bar.boxes[0][0]);
    forall i
      ensures i in Items(bar, bar.titles[0]) <==> 1 <= i <= |bar.accessoryLetters| + 2
    {
      DeskRowIs(bar, i);
    }
  }

  /** Released off everything, a click over a latched menu closes it if it began on an item or off everything as well,
      and leaves it if it began on its title or in its box. */
  lemma ClickEndsOff(bar: Bar, o: Outcome, t: int, h: int, down: Spot, up: Spot, i: int)
    requires o.view == Latched(t, h) && !o.button && On(bar, o.marks, t, down.x, down.y, i)
    requires Off(bar, o.marks, t, up.x, up.y)
    ensures var r := RunAll(bar, o, [MouseAt(down.x, down.y, true), MouseAt(up.x, up.y, false)]);
            && r.marks == o.marks && r.picks == o.picks + [Nothing, Nothing]
            && r.view == if i != NIL || Off(bar, o.marks, t, down.x, down.y) then Closed else Latched(t, NIL)
  {
    var (press, release) := (MouseAt(down.x, down.y, true), MouseAt(up.x, up.y, false));
    var outside := Off(bar, o.marks, t, down.x, down.y);
    assert After1(bar, o, press) == Outcome(Opened(t, i, i, false, true, outside), true, o.marks, o.picks + [Nothing]);
    TwoSamples(bar, o, press, release);
  }

  /** Moving without the button moves the highlight; a menu that is not latched, as one opened by a key, closes when the
      pointer is off everything. */
  lemma Hovers(bar: Bar, o: Outcome, x: Word, y: Word, i: int)
    requires o.view.Opened? && !o.button && On(bar, o.marks, o.view.title, x, y, i)
    ensures var r := After1(bar, o, MouseAt(x, y, false));
            && r.marks == o.marks && r.picks == o.picks + [Nothing]
            && r.view == if !o.view.latched && !o.view.drag && Off(bar, o.marks, o.view.title, x, y) then Closed
                         else o.view.(item := i)
  {
  }

  /** While no menu is open the pointer does nothing but open one, by a press on a title. */
  lemma ClosedStays(bar: Bar, o: Outcome, x: Word, y: Word, held: bool)
    requires o.view == Closed && (!held || o.button || TitleUnder(bar, o.marks, x, y) == NIL)
    ensures After1(bar, o, MouseAt(x, y, held)) == Outcome(Closed, held, o.marks, o.picks + [Nothing])
  {
  }

  // Where the pointer is

  /** A title or item is touched at the pixels of its rectangle, as long as their edges fit a word, unless disabled. */
  lemma TouchedIs(marks: seq<Mark>, spots: seq<Rect>, c: int, x: Word, y: Word)
    requires 0 <= c < |marks| && c < |spots|
    requires WORD_MIN <= spots[c].Right() <= WORD_MAX && WORD_MIN <= spots[c].Bottom() <= WORD_MAX
    ensures Touched(marks, spots, c, x, y) <==> !marks[c].disabled && spots[c].Has(x, y)
  {
    InsideIs(spots[c], x, y);
  }

  /** The pointer is in the box of a title's menu at the pixels of the box's frame, on the Desk of the first of its
      rows. */
  lemma InMenuIs(bar: Bar, k: nat, x: Word, y: Word)
    requires WellBuilt(bar, |bar.spots|) && k < |bar.titles|
    requires var r := if k == 0 then bar.deskSpots[0] else bar.frames[k];
             WORD_MIN <= r.Right() <= WORD_MAX && WORD_MIN <= r.Bottom() <= WORD_MAX
    ensures InMenu(bar, bar.titles[k], x, y) <==> (if k == 0 then bar.deskSpots[0] else bar.frames[k]).Has(x, y)
  {
    PlaceIs(bar.titles, k);
    InsideIs(if k == 0 then bar.deskSpots[0] else bar.frames[k], x, y);
  }
}
