/** The pull-down menus in place: one tracking record, stepped by one input sample at a time, that highlights titles and
    items by their state words and has to undo it. */
module Menu {
  import opened Geometry
  import opened Links
  import opened MenuItems
  import opened MenuSteps
  import opened TreeWalk

  /** The tracking record. While a menu is open it remembers the state words its highlights cover. */
  datatype Record = Idle
                  | Tracking(title: int, box: int, item: int, armed: int, titleBase: Mark, itemBase: Mark, drag: bool,
                             latched: bool, outside: bool)

  function ViewOf(r: Record): (v: View)
    ensures r.Tracking? <==> v.Opened?
  {
    match r
    case Idle => Closed
    case Tracking(title, _, item, armed, _, _, drag, latched, outside) =>
      Opened(title, item, armed, drag, latched, outside)
  }

  /** The state words are those from before the menu was opened, but for the SELECTED bits of the open title and the
      current item; the record holds what those two covered. */
  ghost predicate Shown(bar: Bar, r: Record, marks: seq<Mark>, desk: seq<Mark>, before: seq<Mark>) {
    match r
    case Idle => marks == before
    case Tracking(title, box, item, _, titleBase, itemBase, _, _, _) =>
      && 0 <= box < |bar.titles| && box == BoxOf(bar, title) && bar.titles[box] == title
      && (item == NIL || item in Items(bar, title)) && titleBase == MarkAt(before, title)
      && (item != NIL ==> itemBase == MarkAt(Words(bar, before, title), item))
      && marks == Lit(if OnDesk(bar, title) then before else Lit(before, item), title)
      && (OnDesk(bar, title) ==> desk == Lit(DeskMarks(bar, before), item))
  }

  // The record and the words, step by step

  lemma TitlePlaces(bar: Bar, count: nat, title: int)
    requires WellBuilt(bar, count) && title in bar.titles
    ensures 0 <= BoxOf(bar, title) < |bar.titles| && bar.titles[BoxOf(bar, title)] == title && 0 <= title < count
    ensures OnDesk(bar, title) <==> BoxOf(bar, title) == 0
  {
  }

  lemma ItemPlaces(bar: Bar, count: nat, title: int, i: int)
    requires WellBuilt(bar, count) && title in bar.titles && i in Items(bar, title)
    ensures if OnDesk(bar, title) then 0 < i < DESK_OBJECTS else 0 <= i < count && i !in bar.titles
  {
    hide WellBuilt, DeskRows;
    TitlePlaces(bar, count, title);
    if OnDesk(bar, title) {
      DeskRowIs(bar, i);
      BarLetters(bar, count);
    } else {
      BoxItems(bar, count, BoxOf(bar, title), i);
    }
  }

  lemma BarLetters(bar: Bar, count: nat)
    requires WellBuilt(bar, count)
    ensures |bar.accessoryLetters| <= ACCESSORIES
  {
  }

  lemma BoxItems(bar: Bar, count: nat, k: int, i: int)
    requires WellBuilt(bar, count) && 0 <= k < |bar.boxes| && i in bar.boxes[k]
    ensures BoxItem(bar, count, i)
  {
  }

  /** Opening: the title is lit. */
  lemma ShownOpen(bar: Bar, before: seq<Mark>, desk: seq<Mark>, title: int, r: Record)
    requires WellBuilt(bar, |before|) && title in bar.titles && 0 <= title < |before|
    requires r.Tracking? && r.title == title && r.item == NIL && r.box == BoxOf(bar, title)
             && r.titleBase == before[title]
    requires OnDesk(bar, title) ==> desk == DeskMarks(bar, before)
    ensures Shown(bar, r, before[title := before[title].(selected := true)], desk, before)
  {
    TitlePlaces(bar, |before|, title);
  }

  /** The words with the item's highlight taken off again. */
  ghost predicate TitleOnly(bar: Bar, r: Record, marks: seq<Mark>, desk: seq<Mark>, before: seq<Mark>) {
    r.Tracking? && Shown(bar, r.(item := NIL), marks, desk, before)
  }

  /** Putting back the word an item's highlight covers. */
  lemma ShownPutBack(bar: Bar, r: Record, marks: seq<Mark>, desk: seq<Mark>, before: seq<Mark>)
    requires WellBuilt(bar, |before|) && r.Tracking? && r.item != NIL && Shown(bar, r, marks, desk, before)
    requires |marks| == |before| && |desk| == DESK_OBJECTS
    ensures if OnDesk(bar, r.title)
            then 0 <= r.item < |desk| && TitleOnly(bar, r, marks, desk[r.item := r.itemBase], before)
            else 0 <= r.item < |marks| && TitleOnly(bar, r, marks[r.item := r.itemBase], desk, before)
  {
    hide Items, WellBuilt;
    RecordPlaces(bar, r, marks, desk, before);
    ItemPlaces(bar, |before|, r.title, r.item);
    if OnDesk(bar, r.title) {
      assert desk[r.item := r.itemBase] == DeskMarks(bar, before);
    } else {
      assert marks[r.item := r.itemBase] == Lit(before, r.title);
    }
  }

  lemma RecordPlaces(bar: Bar, r: Record, marks: seq<Mark>, desk: seq<Mark>, before: seq<Mark>)
    requires WellBuilt(bar, |before|) && r.Tracking? && Shown(bar, r, marks, desk, before)
    ensures r.title in bar.titles && 0 <= r.title < |before| && 0 <= r.box < |bar.titles| == |bar.boxes| == |bar.frames|
    ensures r.box == BoxOf(bar, r.title) && (OnDesk(bar, r.title) <==> r.box == 0)
  {
    TitlePlaces(bar, |before|, r.title);
  }

  /** Lighting another item. */
  lemma ShownLight(bar: Bar, r: Record, marks: seq<Mark>, desk: seq<Mark>, before: seq<Mark>, i: int)
    requires WellBuilt(bar, |before|) && TitleOnly(bar, r, marks, desk, before) && i in Items(bar, r.title)
    requires |marks| == |before| && |desk| == DESK_OBJECTS
    ensures if OnDesk(bar, r.title)
            then 0 <= i < |desk| && Shown(bar, r.(item := i, itemBase := desk[i]), marks,
                                          desk[i := desk[i].(selected := true)], before)
            else 0 <= i < |marks| && Shown(bar, r.(item := i, itemBase := marks[i]),
                                           marks[i := marks[i].(selected := true)], desk, before)
  {
    hide Items, WellBuilt;
    RecordPlaces(bar, r.(item := NIL), marks, desk, before);
    ItemPlaces(bar, |before|, r.title, i);
    if !OnDesk(bar, r.title) {
      assert marks[i := marks[i].(selected := true)] == Lit(Lit(before, i), r.title);
    }
  }

  /** Putting back the word the title's highlight covers, as it was or with its bit set or cleared. */
  lemma ShownClose(bar: Bar, r: Record, marks: seq<Mark>, desk: seq<Mark>, before: seq<Mark>)
    requires WellBuilt(bar, |before|) && TitleOnly(bar, r, marks, desk, before) && |marks| == |before|
    ensures 0 <= r.title < |marks| && r.titleBase == before[r.title] && marks[r.title := r.titleBase] == before
    ensures marks[r.title := r.titleBase.(selected := true)] == Lit(before, r.title)
    ensures marks[r.title := r.titleBase.(selected := false)] == Unlit(before, r.title)
  {
    RecordPlaces(bar, r.(item := NIL), marks, desk, before);
  }

  class Menu {
    const bar: Bar
    const marks: array<Mark>
    const desk: array<Mark>
    var now: Record
    var button: bool
    ghost var before: seq<Mark>

    ghost predicate Valid()
      reads this, marks, desk
    {
      marks != desk && WellBuilt(bar, marks.Length) && |before| == marks.Length && desk.Length == DESK_OBJECTS
      && Shown(bar, now, marks[..], desk[..], before)
    }

    constructor (layout: Bar, states: seq<Mark>)
      requires WellBuilt(layout, |states|)
      ensures Valid() && now == Idle && !button && bar == layout && before == states && fresh(marks) && fresh(desk)
    {
      bar := layout;
      marks := new Mark[|states|](i requires 0 <= i < |states| => states[i]);
      desk := new Mark[DESK_OBJECTS](_ => PLAIN);
      now, button, before := Idle, false, states;
      new;
      assert marks[..] == states;
    }

    lemma Parts()
      requires Valid()
      ensures marks != desk && WellBuilt(bar, marks.Length) && |before| == marks.Length && desk.Length == DESK_OBJECTS
      ensures Shown(bar, now, marks[..], desk[..], before)
      ensures |bar.spots| == |bar.letters| == marks.Length && |bar.deskSpots| == desk.Length
      ensures |bar.titles| == |bar.boxes| == |bar.frames| > 0 && bar.boxes[0] != [] && Distinct(bar.titles)
      ensures now.Tracking? ==> now.title in bar.titles
    {
      if now.Tracking? {
        RecordPlaces(bar, now, marks[..], desk[..], before);
      }
    }

    /** Takes the highlight off the current item. */
    method PutBack()
      requires Valid() && now.Tracking? && now.item != NIL
      modifies marks, desk
      ensures TitleOnly(bar, now, marks[..], desk[..], before)
    {
      hide Shown, TitleOnly, WellBuilt, Items;
      Parts();
      RecordPlaces(bar, now, marks[..], desk[..], before);
      ShownPutBack(bar, now, marks[..], desk[..], before);
      if now.box == 0 {
        desk[now.item] := now.itemBase;
      } else {
        marks[now.item] := now.itemBase;
      }
    }

    /** Moves the highlight from one item to another, or takes it away. */
    method SetCurrentItem(next: int)
      requires Valid() && now.Tracking? && (next == NIL || next in Items(bar, now.title))
      modifies this`now, marks, desk
      ensures Valid() && now.Tracking? && ViewOf(now) == With(old(ViewOf(now)), next)
    {
      hide Shown, WellBuilt, Items;
      if next == now.item {
        return;
      }
      Parts();
      if now.item != NIL {
        PutBack();
      }
      ghost var r := now;
      now := now.(item := next);
      if next == NIL {
        return;
      }
      RecordPlaces(bar, r.(item := NIL), marks[..], desk[..], before);
      ShownLight(bar, r, marks[..], desk[..], before, next);
      if now.box == 0 {
        now := now.(itemBase := desk[next]);
        desk[next] := desk[next].(selected := true);
      } else {
        now := now.(itemBase := marks[next]);
        marks[next] := marks[next].(selected := true);
      }
    }

    /** The box that belongs to a title: titles and boxes are walked in step. */
    method MenuFor(t: int) returns (k: int)
      requires Valid() && t in bar.titles
      ensures k == BoxOf(bar, t)
    {
      Parts();
      k := 0;
      while bar.titles[k] != t
        invariant 0 <= k <= Place(bar.titles, t)
        decreases |bar.titles| - k
      {
        k := k + 1;
      }
      PlaceIs(bar.titles, k);
    }

    /** Rebuilds the Desk's own rows from the application's first menu. */
    method BuildDesk()
      requires Valid() && now == Idle
      modifies desk
      ensures Valid() && desk[..] == DeskMarks(bar, before)
    {
      Parts();
      var information, separator := bar.boxes[0][0], bar.separator;
      assert BoxItem(bar, marks.Length, information);
      for i := 0 to DESK_OBJECTS
        modifies desk
        invariant forall j | 0 <= j < i :: desk[j] == PLAIN
      {
        desk[i] := PLAIN;
      }
      desk[1] := marks[information];
      desk[2] := marks[separator].(disabled := true);
      assert desk[..] == seq(DESK_OBJECTS, _ => PLAIN)[1 := desk[1]][2 := desk[2]];
      assert desk[..] == DeskMarks(bar, before);
    }

    /** Opens the menu of a title. */
    method OpenTitle(t: int, drag: bool)
      requires Valid() && now == Idle && t in bar.titles
      modifies this`now, marks, desk
      ensures Valid() && now.Tracking? && ViewOf(now) == JustOpened(t, drag)
    {
      hide WellBuilt, Shown;
      Parts();
      IdleWords();
      TitlePlaces(bar, marks.Length, t);
      var k := MenuFor(t);
      if k == 0 {
        BuildDesk();
      }
      ghost var r := Tracking(t, k, NIL, NIL, marks[t], PLAIN, drag, false, false);
      ShownOpen(bar, before, desk[..], t, r);
      now := Tracking(t, k, NIL, NIL, marks[t], PLAIN, drag, false, false);
      marks[t] := marks[t].(selected := true);
    }

    lemma IdleWords()
      requires Valid() && now == Idle
      ensures marks[..] == before
    {
    }

    /** Closes the open menu, on a pick or without one. Everything that was highlighted is put back; a pick leaves its
        title lit, or for an accessory unlit. */
    method CloseMenu(item: int) returns (pick: Pick)
      requires Valid() && now.Tracking? && (item == NIL || item in Items(bar, now.title))
      modifies this`now, this`before, marks, desk
      ensures Valid() && now == Idle && before == Effect(old(before), pick)
      ensures pick == if item == NIL then Nothing else PickOf(bar, old(now.title), item)
    {
      hide WellBuilt, Shown, Items;
      Parts();
      if item != NIL {
        PickPlaces(item);
      }
      if now.item != NIL {
        PutBack();
      }
      ShownClose(bar, now, marks[..], desk[..], before);
      pick := Nothing;
      if item == NIL {
        marks[now.title] := now.titleBase;
      } else if now.box == 0 && item >= DESK_FIXED {
        marks[now.title] := now.titleBase.(selected := false);
        pick := Accessory(now.title, item - DESK_FIXED);
      } else {
        marks[now.title] := now.titleBase.(selected := true);
        pick := Selected(now.title, if now.box == 0 then bar.boxes[0][0] else item);
      }
      before := Effect(before, pick);
      now := Idle;
      ClosedNow();
    }

    lemma PickPlaces(item: int)
      requires Valid() && now.Tracking? && item in Items(bar, now.title)
      ensures OnDesk(bar, now.title) <==> now.box == 0
      ensures OnDesk(bar, now.title) ==> item - DESK_FIXED < |bar.accessoryLetters|
    {
      RecordPlaces(bar, now, marks[..], desk[..], before);
      DeskRowIs(bar, item);
    }

    lemma ClosedNow()
      requires marks != desk && WellBuilt(bar, marks.Length) && |before| == marks.Length && desk.Length == DESK_OBJECTS
      requires now == Idle && marks[..] == before
      ensures Valid()
    {
    }

    /** Goes from the open menu to another one, its first item highlighted when a key led there. */
    method SwitchTitle(t: int, keyboard: bool)
      requires Valid() && now.Tracking? && (t == NIL || t in bar.titles)
      modifies this`now, marks, desk
      ensures Valid() && now.Tracking?
      ensures ViewOf(now) == if t == NIL || t == old(now.title) then old(ViewOf(now))
                             else if keyboard then KeyOpened(bar, before, t) else JustOpened(t, false)
    {
      hide WellBuilt, Shown, Items, Step;
      if t == NIL || t == now.title {
        return;
      }
      Parts();
      if now.item != NIL {
        PutBack();
      }
      ShownClose(bar, now, marks[..], desk[..], before);
      marks[now.title] := now.titleBase;
      now := Idle;
      ClosedNow();
      OpenTitle(t, false);
      if keyboard {
        var first := FindItem(NIL, true);
        SetCurrentItem(first);
      }
    }

    // Looking things up

    /** Apart from highlights the words are those from before the menu was opened. */
    lemma WordsNow(title: int)
      requires Valid()
      ensures SameDisabled(marks[..], before)
      ensures now.Tracking? && title == now.title ==>
                SameDisabled(if OnDesk(bar, title) then desk[..] else marks[..], Words(bar, before, title))
      ensures |Spots(bar, title)| == if OnDesk(bar, title) then desk.Length else marks.Length
    {
    }

    lemma ListsNow()
      requires Valid()
      ensures Distinct(bar.titles) && forall i | 0 <= i < |bar.titles| :: 0 <= bar.titles[i] < marks.Length
      ensures now.Tracking? ==> now.title in bar.titles && Distinct(Items(bar, now.title))
      ensures now.Tracking? ==> 0 <= now.box < |bar.boxes| == |bar.frames| && (now.box == 0 <==> OnDesk(bar, now.title))
      ensures now.Tracking? && now.box != 0 ==> Items(bar, now.title) == bar.boxes[now.box]
      ensures now.Tracking? && now.box != 0 ==> FrameOf(bar, now.title) == bar.frames[now.box]
      ensures now.Tracking? && now.box == 0 ==> Items(bar, now.title) == DeskRows(bar)
      ensures now.Tracking? && now.box == 0 ==>
                FrameOf(bar, now.title) == if bar.deskSpots == [] then ZERO else bar.deskSpots[0]
      ensures now.Tracking? ==> forall i | 0 <= i < |Items(bar, now.title)| ::
                0 <= Items(bar, now.title)[i] < if now.box == 0 then desk.Length else marks.Length
    {
      hide Items, WellBuilt;
      Parts();
      if now.Tracking? {
        RecordPlaces(bar, now, marks[..], desk[..], before);
        ItemsAre(bar, marks.Length, now.title);
        var items := Items(bar, now.title);
        forall i | 0 <= i < |items|
          ensures 0 <= items[i] < if now.box == 0 then desk.Length else marks.Length
        {
          ItemPlaces(bar, marks.Length, now.title, items[i]);
        }
      }
      TitleNumbers(bar, marks.Length);
    }

    method TitleAt(x: Word, y: Word) returns (t: int)
      requires Valid()
      ensures t == TitleUnder(bar, before, x, y) && (t == NIL || t in bar.titles)
    {
      hide Shown, WellBuilt;
      Parts();
      ListsNow();
      WordsNow(NIL);
      t := ListAt(bar.titles, marks, bar.spots, x, y);
      SearchesSame(bar, bar.titles, marks[..], before, bar.spots, x, y, bar.letters, BLANK);
      FirstTouchedIn(bar.titles, before, bar.spots, x, y);
    }

    method ItemAt(x: Word, y: Word) returns (i: int)
      requires Valid() && now.Tracking?
      ensures i == ItemUnder(bar, before, now.title, x, y) && (i == NIL || i in Items(bar, now.title))
    {
      hide Shown, WellBuilt, Items, FirstTouched;
      Parts();
      ListsNow();
      WordsNow(now.title);
      ghost var (list, words) := (Items(bar, now.title), Words(bar, before, now.title));
      if now.box == 0 {
        i := ListAt(DeskRows(bar), desk, bar.deskSpots, x, y);
        SearchesSame(bar, list, desk[..], words, bar.deskSpots, x, y, bar.letters, BLANK);
      } else {
        i := ListAt(bar.boxes[now.box], marks, bar.spots, x, y);
        SearchesSame(bar, list, marks[..], words, bar.spots, x, y, bar.letters, BLANK);
      }
      FirstTouchedIn(list, words, Spots(bar, now.title), x, y);
    }

    method AtMenu(x: Word, y: Word) returns (inside: bool)
      requires Valid() && now.Tracking?
      ensures inside == InMenu(bar, now.title, x, y)
    {
      hide Shown, WellBuilt, Items, FrameOf;
      Parts();
      ListsNow();
      var r := if now.box == 0 then bar.deskSpots[0] else bar.frames[now.box];
      inside := Inside(r.x, r.y, r.w, r.h, x, y);
    }

    method FindItem(current: int, forward: bool) returns (found: int)
      requires Valid() && now.Tracking?
      ensures found == Step(bar, before, now.title, current, forward)
              && (found == NIL || found in Items(bar, now.title))
    {
      hide Shown, WellBuilt, Items, After, Before, Enabled;
      ListsNow();
      WordsNow(now.title);
      ghost var (list, words) := (Items(bar, now.title), Words(bar, before, now.title));
      if now.box == 0 {
        found := ListFind(DeskRows(bar), desk, current, forward);
        SearchesSame(bar, list, desk[..], words, [], 0, 0, [], BLANK);
      } else {
        found := ListFind(bar.boxes[now.box], marks, current, forward);
        SearchesSame(bar, list, marks[..], words, [], 0, 0, [], BLANK);
      }
      MenuSteps.StepIn(list, words, current);
      EnabledIn(list, words);
    }

    method FindTitle(current: int, forward: bool) returns (found: int)
      requires Valid()
      ensures found == TitleStep(bar, before, current, forward) && (found == NIL || found in bar.titles)
    {
      hide Shown, WellBuilt, Items, After, Before, Enabled;
      ListsNow();
      WordsNow(NIL);
      found := ListFind(bar.titles, marks, current, forward);
      SearchesSame(bar, bar.titles, marks[..], before, [], 0, 0, [], BLANK);
      MenuSteps.StepIn(bar.titles, before, current);
      EnabledIn(bar.titles, before);
    }

    method TitleLetter(letter: char) returns (t: int)
      requires Valid()
      ensures t == FirstLetter(bar.titles, before, bar.letters, letter) && (t == NIL || t in bar.titles)
    {
      hide Shown, WellBuilt, Items, FirstLetter;
      Parts();
      ListsNow();
      WordsNow(NIL);
      t := ListLetter(bar.titles, marks, bar.letters, letter);
      SearchesSame(bar, bar.titles, marks[..], before, [], 0, 0, bar.letters, letter);
      FirstLetterIn(bar.titles, before, bar.letters, letter);
    }

    method ItemLetter(letter: char) returns (i: int)
      requires Valid() && now.Tracking?
      ensures i == Shortcut(bar, before, now.title, letter) && (i == NIL || i in Items(bar, now.title))
    {
      hide Shown, WellBuilt, Items, FirstLetter, FirstAccessory;
      Parts();
      ListsNow();
      WordsNow(now.title);
      if now.box != 0 {
        i := ListLetter(bar.boxes[now.box], marks, bar.letters, letter);
        SearchesSame(bar, bar.boxes[now.box], marks[..], before, [], 0, 0, bar.letters, letter);
        FirstLetterIn(bar.boxes[now.box], before, bar.letters, letter);
        return;
      }
      DeskRowIs(bar, 1);
      FirstAccessoryIn(bar.accessoryLetters, 0, letter);
      InformationPlace(bar, marks.Length);
      if bar.letters[bar.boxes[0][0]] == letter {
        return 1;
      }
      var k := AccessoryLetter(letter);
      i := if k == NIL then NIL else k + DESK_FIXED;
      DeskRowIs(bar, i);
    }

    method AccessoryLetter(letter: char) returns (k: int)
      ensures k == FirstAccessory(bar.accessoryLetters, 0, letter)
    {
      k := 0;
      while k < |bar.accessoryLetters|
        invariant 0 <= k <= |bar.accessoryLetters|
        invariant FirstAccessory(bar.accessoryLetters, 0, letter) == FirstAccessory(bar.accessoryLetters, k, letter)
      {
        if bar.accessoryLetters[k] == letter {
          return;
        }
        k := k + 1;
      }
      k := NIL;
    }

    // One sample

    /** One pointer sample over an open menu; `begun` when this sample opened it. */
    method MouseTracking(x: Word, y: Word, held: bool, pressed: bool, released: bool, begun: bool) returns (pick: Pick)
      requires Valid() && now.Tracking?
      modifies this`now, this`before, marks, desk
      ensures Valid() && before == Effect(old(before), pick)
      ensures (ViewOf(now), pick) == Mouse(bar, old(before), old(ViewOf(now)), x, y, held, pressed, released, begun)
    {
      hide Valid, TitleUnder, ItemUnder, InMenu, PickOf, Effect, Items;
      pick := Nothing;
      NoEffect(before);
      var title := TitleAt(x, y);
      if title != NIL && title != now.title {
        SwitchTitle(title, false);
      }
      var item := ItemAt(x, y);
      SetCurrentItem(item);
      var inside := AtMenu(x, y);
      if pressed && !begun {
        Press(item, title != NIL, inside);
      }
      if released {
        if item != NIL && (now.drag || now.armed == item) {
          pick := CloseMenu(item);
          return;
        }
        if !(title != NIL || inside) && (now.outside || now.armed != NIL) {
          pick := CloseMenu(NIL);
          return;
        }
        Release(title != NIL || inside);
      }
      if !held && !now.latched && !now.drag && title == NIL && item == NIL && !inside {
        pick := CloseMenu(NIL);
      }
    }

    method Press(item: int, onTitle: bool, inside: bool)
      requires Valid() && now.Tracking?
      modifies this`now
      ensures Valid() && now == old(now).(armed := item, outside := item == NIL && !onTitle && !inside)
    {
      now := now.(armed := item, outside := item == NIL && !onTitle && !inside);
    }

    method Release(latch: bool)
      requires Valid() && now.Tracking?
      modifies this`now
      ensures Valid()
      ensures now == old(now).(latched := old(now.latched) || latch, drag := false, armed := NIL, outside := false)
    {
      if latch {
        now := now.(latched := true);
      }
      now := now.(drag := false, armed := NIL, outside := false);
    }

    lemma NoEffect(words: seq<Mark>)
      ensures Effect(words, Nothing) == words
    {
    }

    /** One key. */
    method StruckKey(key: Key) returns (pick: Pick)
      requires Valid()
      modifies this`now, this`before, marks, desk
      ensures Valid() && before == Effect(old(before), pick)
      ensures (ViewOf(now), pick) == Keyboard(bar, old(before), old(ViewOf(now)), key)
    {
      hide Valid, PickOf, Effect, Items, Step, TitleStep, Shortcut, FirstLetter;
      pick := Nothing;
      NoEffect(before);
      if now.Idle? {
        OpenByKey(key);
        return;
      }
      match key {
        case Escape => pick := CloseMenu(NIL);
        case Right =>
          var t := FindTitle(now.title, true);
          SwitchTitle(t, true);
        case Left =>
          var t := FindTitle(now.title, false);
          SwitchTitle(t, true);
        case Down =>
          var i := FindItem(now.item, true);
          SetCurrentItem(i);
        case Up =>
          var i := FindItem(now.item, false);
          SetCurrentItem(i);
        case Enter =>
          if now.item != NIL {
            CurrentItem();
            pick := CloseMenu(now.item);
          }
        case _ =>
          var (i, letter) := (NIL, LetterOf(key));
          if letter != BLANK {
            i := ItemLetter(letter);
          }
          pick := CloseMenu(i);
      }
    }

    lemma CurrentItem()
      requires Valid() && now.Tracking?
      ensures now.item == NIL || now.item in Items(bar, now.title)
    {
    }

    method OpenByKey(key: Key)
      requires Valid() && now.Idle?
      modifies this`now, marks, desk
      ensures Valid() && (ViewOf(now), Nothing) == Keyboard(bar, before, Closed, key)
    {
      hide Valid, Items, Step, TitleStep, FirstLetter;
      var t := NIL;
      match key {
        case F10 => t := FindTitle(NIL, true);
        case F1 => t := FindTitle(NIL, false);
        case Other(letter) =>
          if letter != BLANK {
            t := TitleLetter(letter);
          }
        case _ =>
      }
      if t != NIL {
        OpenTitle(t, false);
        var first := FindItem(NIL, true);
        SetCurrentItem(first);
      }
    }

    /** One input sample. */
    method TakeInput(s: Sample) returns (pick: Pick)
      requires Valid()
      modifies this, marks, desk
      ensures Valid() && before == Effect(old(before), pick) && button == s.held
      ensures (ViewOf(now), pick) == Input(bar, old(before), old(ViewOf(now)), old(button), s)
    {
      hide Shown, WellBuilt, Mouse, Keyboard, TitleUnder, Effect;
      var (pressed, released) := (s.held && !button, !s.held && button);
      NoEffect(before);
      button := s.held;
      if s.Struck? {
        pick := StruckKey(s.key);
        return;
      }
      pick := Nothing;
      var begun := false;
      if now.Idle? && pressed {
        var t := TitleAt(s.x, s.y);
        if t != NIL {
          OpenTitle(t, true);
          begun := true;
        }
      }
      if now.Tracking? {
        pick := MouseTracking(s.x, s.y, s.held, pressed, released, begun);
      }
    }

    /** A run of input samples. From a closed menu to a closed menu without a pick, every state word is as it was. */
    method TakeInputs(samples: seq<Sample>) returns (picks: seq<Pick>)
      requires Valid()
      modifies this, marks, desk
      ensures Valid() && |picks| == |samples|
      ensures Outcome(ViewOf(now), button, before, picks)
              == RunAll(bar, Outcome(old(ViewOf(now)), old(button), old(before), []), samples)
      ensures before == Effects(old(before), picks)
      ensures now.Idle? ==> marks[..] == Effects(old(before), picks)
      ensures now.Idle? && old(now.Idle?) && (forall i | 0 <= i < |picks| :: picks[i] == Nothing) ==>
                marks[..] == old(marks[..])
    {
      hide Shown, WellBuilt, Input, Effect, RunAll;
      picks := [];
      if now.Idle? {
        IdleWords();
      }
      ghost var start := Outcome(ViewOf(now), button, before, []);
      var k := 0;
      RunStart(bar, start, samples);
      while k < |samples|
        invariant 0 <= k <= |samples| && Valid() && |picks| == k && before == Effects(old(before), picks)
        invariant RunAll(bar, start, samples) == RunAll(bar, Outcome(ViewOf(now), button, before, picks), samples[k..])
      {
        RunStep(bar, Outcome(ViewOf(now), button, before, picks), samples, k);
        var pick := TakeInput(samples[k]);
        picks := picks + [pick];
        assert picks[..k] == picks[..|picks| - 1];
        k := k + 1;
      }
      RunStop(bar, Outcome(ViewOf(now), button, before, picks), samples);
      if now.Idle? {
        IdleWords();
        if forall i | 0 <= i < |picks| :: picks[i] == Nothing {
          NoPicks(old(before), picks);
        }
      }
    }
  }

  lemma RunStart(bar: Bar, o: Outcome, samples: seq<Sample>)
    ensures samples[0..] == samples
  {
  }

  lemma RunStep(bar: Bar, o: Outcome, samples: seq<Sample>, k: nat)
    requires k < |samples|
    ensures var (v, pick) := Input(bar, o.marks, o.view, o.button, samples[k]);
            var o' := Outcome(v, samples[k].held, Effect(o.marks, pick), o.picks + [pick]);
            RunAll(bar, o, samples[k..]) == RunAll(bar, o', samples[k + 1..])
  {
    assert samples[k..][1..] == samples[k + 1..];
  }

  lemma RunStop(bar: Bar, o: Outcome, samples: seq<Sample>)
    ensures RunAll(bar, o, samples[|samples|..]) == o
  {
  }

  lemma ItemsAre(bar: Bar, count: nat, title: int)
    requires WellBuilt(bar, count) && title in bar.titles
    ensures Distinct(Items(bar, title))
    ensures !OnDesk(bar, title) ==> Items(bar, title) == bar.boxes[BoxOf(bar, title)]
    ensures OnDesk(bar, title) ==> Items(bar, title) == DeskRows(bar)
  {
    TitlePlaces(bar, count, title);
  }

  lemma TitleNumbers(bar: Bar, count: nat)
    requires WellBuilt(bar, count)
    ensures forall i | 0 <= i < |bar.titles| :: 0 <= bar.titles[i] < count
  {
  }

  lemma InformationPlace(bar: Bar, count: nat)
    requires WellBuilt(bar, count)
    ensures |bar.boxes| > 0 && bar.boxes[0] != [] && 0 <= bar.boxes[0][0] < |bar.letters|
  {
    BoxItems(bar, count, 0, bar.boxes[0][0]);
  }

  /** The first enabled object of a list that the pointer is on. */
  method ListAt(list: seq<int>, marks: array<Mark>, spots: seq<Rect>, x: Word, y: Word) returns (found: int)
    requires |spots| == marks.Length && forall i | 0 <= i < |list| :: 0 <= list[i] < marks.Length
    ensures found == FirstTouched(list, marks[..], spots, x, y)
  {
    hide Inside;
    var k := 0;
    while k < |list|
      invariant 0 <= k <= |list|
      invariant FirstTouched(list, marks[..], spots, x, y) == FirstTouched(list[k..], marks[..], spots, x, y)
    {
      var c := list[k];
      assert list[k..][1..] == list[k + 1..];
      if !marks[c].disabled && Inside(spots[c].x, spots[c].y, spots[c].w, spots[c].h, x, y) {
        return c;
      }
      k := k + 1;
    }
    found := NIL;
  }

  /** The first enabled object of a list with a shortcut letter. */
  method ListLetter(list: seq<int>, marks: array<Mark>, letters: seq<char>, letter: char) returns (found: int)
    requires |letters| == marks.Length && forall i | 0 <= i < |list| :: 0 <= list[i] < marks.Length
    ensures found == FirstLetter(list, marks[..], letters, letter)
  {
    var k := 0;
    while k < |list|
      invariant 0 <= k <= |list|
      invariant FirstLetter(list, marks[..], letters, letter) == FirstLetter(list[k..], marks[..], letters, letter)
    {
      var c := list[k];
      assert list[k..][1..] == list[k + 1..];
      if !marks[c].disabled && letters[c] == letter {
        return c;
      }
      k := k + 1;
    }
    found := NIL;
  }
}
