/**
 * The list-box user interface: panel geometry, the visible window of a list
 * box, and the cursor/window state machine `ListBoxPanel.draw` runs under the
 * Up, Down, Select and Cancel buttons. Pens, text and rectangles are not
 * modelled; what is kept is which items are drawn where and what the loop
 * returns.
 */
module Gui {
  import opened Wrappers
  import opened PyLib

  const TextHeight: int := 18
  const Background: int := 2
  const TextXOffset: int := Background + 5
  const TextYOffset: int := Background + 2

  /** The `y` where a panel's text area starts. */
  function TextTop(hasTitle: bool): int
  {
    if hasTitle then TextYOffset + TextHeight else TextYOffset
  }

  /** The height a panel's text area gets from a display with this list height. */
  function AreaHeight(listHeight: int, hasTitle: bool): int
  {
    if hasTitle then listHeight - 2 - TextHeight else listHeight - 2
  }

  /**
   * `ListBoxPanel.maxTextEntries`. Python's `//` floors; for the positive
   * divisor `TextHeight` Dafny's Euclidean `/` is the same.
   */
  function MaxEntries(listHeight: int, hasTitle: bool): int
  {
    (AreaHeight(listHeight, hasTitle) - TextTop(hasTitle)) / TextHeight + 2
  }

  /** A title moves the text area down one text line and keeps its bottom edge. */
  lemma TitleShiftsTextArea(listHeight: int)
    ensures TextTop(true) == TextTop(false) + TextHeight
    ensures AreaHeight(listHeight, true) == AreaHeight(listHeight, false) - TextHeight
    ensures TextTop(true) + AreaHeight(listHeight, true) == TextTop(false) + AreaHeight(listHeight, false)
  {
  }

  /**
   * Because `maxTextEntries` subtracts `starty` from a height that already
   * lost the title line, a title costs two list entries, not one.
   */
  lemma TitleCostsTwoEntries(listHeight: int)
    ensures MaxEntries(listHeight, true) == MaxEntries(listHeight, false) - 2
  {
    var h := listHeight - 2 - TextYOffset;
    assert AreaHeight(listHeight, false) - TextTop(false) == h;
    assert AreaHeight(listHeight, true) - TextTop(true) == h - 2 * TextHeight;
    assert (h - 2 * TextHeight) / TextHeight == h / TextHeight - 2;
  }

  /** On a 320 by 240 screen a titled list box has room for 12 entries, an untitled one 14. */
  lemma MaxEntriesExample()
    ensures MaxEntries(240 - 2 * Background, true) == 12
    ensures MaxEntries(240 - 2 * Background, false) == 14
  {
    assert AreaHeight(236, true) - TextTop(true) == 194;
    assert AreaHeight(236, false) - TextTop(false) == 230;
  }

  /** The screen geometry of a `Display`; its bounds come from the graphics driver. */
  class Display {
    const width: int
    const height: int
    const listWidth: int
    const listHeight: int
    const maxTextEntries: int

    constructor (width: int, height: int)
      ensures this.width == width && this.height == height
      ensures listWidth == width - 2 * Background && listHeight == height - 2 * Background
      ensures maxTextEntries == (listHeight - Background + 2) / TextHeight
    {
      this.width := width;
      this.height := height;
      listWidth := width - 2 * Background;
      listHeight := height - 2 * Background;
      maxTextEntries := (height - 2 * Background - Background + 2) / TextHeight;
    }
  }

  /** A `Panel`: an optional title and the text area under it. */
  class Panel {
    const display: Display
    var title: string
    const titlex: int
    const titley: int
    const startx: int
    const starty: int
    const height: int
    const width: int
    const hasTitle: bool

    /** An untitled panel keeps an empty title: `changeTitle` cannot give it one. */
    predicate Valid()
      reads this
    {
      !hasTitle ==> title == ""
    }

    constructor (display: Display, title: Option<string>)
      ensures Valid()
      ensures this.display == display
      ensures this.title == (if title.Some? then title.value else "")
      ensures hasTitle <==> this.title != ""
      ensures titlex == TextXOffset && titley == TextYOffset && startx == TextXOffset
      ensures starty == TextTop(hasTitle) && height == AreaHeight(display.listHeight, hasTitle)
      ensures width == display.listWidth
    {
      var t := if title.Some? then title.value else "";
      var titled := t != "";
      this.display := display;
      this.title := t;
      titlex := TextXOffset;
      titley := TextYOffset;
      startx := TextXOffset;
      starty := if titled then TextYOffset + TextHeight else TextYOffset;
      height := if titled then display.listHeight - 2 - TextHeight else display.listHeight - 2;
      width := display.listWidth;
      hasTitle := titled;
    }

    /** `changeTitle`: only a titled panel takes the new title. */
    method ChangeTitle(title: string)
      requires Valid()
      modifies this`title
      ensures Valid()
      ensures this.title == if hasTitle then title else old(this.title)
    {
      if hasTitle {
        this.title := title;
      }
    }
  }

  /** One line `fillListBox` draws: the item and the pixel position of its text. */
  datatype Row<T> = Row(item: T, x: int, y: int)

  /** How many items `fillListBox` draws from `start` on with room for `max`. */
  function VisibleCount(len: nat, start: nat, max: int): (n: nat)
    ensures n <= len
    ensures start < len ==> n >= 1
  {
    if start >= len then 0 else Min(Max(max, 1), len - start)
  }

  /** With room for at least one entry, the window holds `min(max, len-start)` items. */
  lemma VisibleWindow(len: nat, start: nat, max: int)
    requires max >= 1 && start <= len
    ensures VisibleCount(len, start, max) == Min(max, len - start)
    ensures start + VisibleCount(len, start, max) <= len
  {
  }

  /** The buttons as read in one pass of the `draw` loop. */
  datatype Buttons = Buttons(up: bool, down: bool, select: bool, cancel: bool)

  const NoButton := Buttons(false, false, false, false)
  const DownButton := Buttons(false, true, false, false)
  const SelectButton := Buttons(false, false, true, false)

  /** The loop state of `draw`: the list, the window start, the cursor line and the tick count. */
  datatype Nav<T> = Nav(items: seq<T>, start: nat, line: nat, count: nat)

  /**
   * How a run of `draw` stands: Select ended it with an item or `None`,
   * Cancel ended it, or it is still waiting when the inputs run out.
   */
  datatype Outcome<T> = Selected(item: Option<T>, nav: Nav<T>) | Cancelled(nav: Nav<T>) | Waiting(nav: Nav<T>)

  /** What `draw` returns for a finished run. */
  function Returned<T>(o: Outcome<T>): Option<T>
  {
    if o.Selected? then o.item else None
  }

  /** The Up button: move the cursor up, or else scroll the window up. */
  function Up<T>(n: Nav<T>): (r: Nav<T>)
    ensures r.items == n.items && r.count == n.count
    ensures r.line + r.start == if n.line + n.start > 0 then n.line + n.start - 1 else 0
  {
    if n.line > 0 then n.(line := n.line - 1)
    else if n.start > 0 then n.(start := n.start - 1)
    else n
  }

  /** The Down button: move the cursor down within the window and the list, or else scroll. */
  function Down<T>(n: Nav<T>, max: int): (r: Nav<T>)
    ensures r.items == n.items && r.count == n.count
    ensures r.line + r.start == n.line + n.start || r.line + r.start == n.line + n.start + 1
    ensures r.line >= n.line && r.start >= n.start
  {
    if n.line < max - 1 && n.line < |n.items| - 1 then n.(line := n.line + 1)
    else if |n.items| - n.start > max then n.(start := n.start + 1)
    else n
  }

  /** The item under the cursor, or `None` when the cursor is past the end of the list. */
  function Pick<T>(n: Nav<T>): (r: Option<T>)
    ensures r.Some? <==> n.line + n.start < |n.items|
    ensures r.Some? ==> r.value == n.items[n.line + n.start]
  {
    if n.line + n.start < |n.items| then Some(n.items[n.line + n.start]) else None
  }

  /**
   * The periodic refresh: with a refresh function, every tick whose count is a
   * multiple of 10 replaces the list; the refresh function stands for the
   * caller's `asyncFunc`, given the tick count at which it is called.
   */
  function Refresh<T>(n: Nav<T>, refresh: Option<nat -> seq<T>>): (r: Nav<T>)
    ensures r.start == n.start && r.line == n.line && r.count == n.count
    ensures r.items != n.items ==> refresh.Some? && n.count % 10 == 0
  {
    if refresh.Some? && n.count % 10 == 0 then n.(items := refresh.value(n.count)) else n
  }

  /** The buttons of one pass, checked in the order Up, Down, Select, Cancel; the count goes up by one. */
  function Press<T>(m: Nav<T>, b: Buttons, max: int): (r: Outcome<T>)
    ensures r.nav.count == m.count + 1 && r.nav.items == m.items
    ensures r.Waiting? <==> b.up || b.down || (!b.select && !b.cancel)
    ensures r.Selected? <==> !b.up && !b.down && b.select
    ensures r.Selected? ==> r.item == Pick(m)
    ensures !b.up && !b.down ==> r.nav.start == m.start && r.nav.line == m.line
  {
    if b.up then Waiting(Up(m).(count := m.count + 1))
    else if b.down then Waiting(Down(m, max).(count := m.count + 1))
    else if b.select then Selected(Pick(m), m.(count := m.count + 1))
    else if b.cancel then Cancelled(m.(count := m.count + 1))
    else Waiting(m.(count := m.count + 1))
  }

  /** One pass of the `draw` loop: the periodic refresh, then the buttons. */
  function Tick<T>(n: Nav<T>, b: Buttons, max: int, refresh: Option<nat -> seq<T>>): (r: Outcome<T>)
    ensures r.nav.count == n.count + 1
    ensures r.nav.items == Refresh(n, refresh).items
    ensures r.Selected? ==> r.item == Pick(Refresh(n, refresh))
  {
    Press(Refresh(n, refresh), b, max)
  }

  /** The `draw` loop over a finite sequence of button readings. */
  function Run<T>(n: Nav<T>, inputs: seq<Buttons>, max: int, refresh: Option<nat -> seq<T>>): (r: Outcome<T>)
    ensures r.Waiting? ==> r.nav.count == n.count + |inputs|
    decreases |inputs|
  {
    if inputs == [] then Waiting(n)
    else
      var o := Tick(n, inputs[0], max, refresh);
      if o.Waiting? then Run(o.nav, inputs[1..], max, refresh) else o
  }

  /** The run from the `i`-th reading on is one tick followed by the run from the next. */
  lemma RunFrom<T>(n: Nav<T>, inputs: seq<Buttons>, i: nat, max: int, refresh: Option<nat -> seq<T>>)
    requires i < |inputs|
    ensures var o := Tick(n, inputs[i], max, refresh);
            Run(n, inputs[i..], max, refresh) == if o.Waiting? then Run(o.nav, inputs[i + 1..], max, refresh) else o
  {
    assert inputs[i..][0] == inputs[i] && inputs[i..][1..] == inputs[i + 1..];
  }

  /** The list stays the same: no refresh, or one that always returns the list. */
  ghost predicate Fixed<T>(refresh: Option<nat -> seq<T>>, items: seq<T>)
  {
    refresh.Some? ==> forall k: nat :: refresh.value(k) == items
  }

  /**
   * The invariant of `draw` on a fixed list: the cursor stays in the window,
   * a scrolled window is full, and the cursor is on an item of a non-empty list.
   */
  predicate Inv<T>(n: Nav<T>, max: int)
  {
    && n.line <= max - 1
    && (n.start == 0 || n.start + max <= |n.items|)
    && (|n.items| > 0 ==> n.line + n.start < |n.items|)
  }

  /** `draw` starts at the top of the list, where the invariant holds. */
  lemma InitialInv<T>(items: seq<T>, max: int)
    requires max >= 1
    ensures Inv(Nav(items, 0, 0, 0), max)
  {
  }

  /** One tick on a fixed list keeps the invariant and the list. */
  lemma TickKeepsInv<T>(n: Nav<T>, b: Buttons, max: int, refresh: Option<nat -> seq<T>>)
    requires Inv(n, max) && Fixed(refresh, n.items)
    ensures Tick(n, b, max, refresh).nav.items == n.items
    ensures Inv(Tick(n, b, max, refresh).nav, max)
  {
    var m := Refresh(n, refresh);
    assert m.items == n.items by {
      if refresh.Some? && n.count % 10 == 0 {
        assert refresh.value(n.count) == n.items;
      }
    }
  }

  /** On a fixed list the invariant holds at the end of every run, and Select returns the item under the cursor. */
  lemma {:induction false} RunKeepsInv<T>(n: Nav<T>, inputs: seq<Buttons>, max: int, refresh: Option<nat -> seq<T>>)
    requires Inv(n, max) && Fixed(refresh, n.items)
    ensures Run(n, inputs, max, refresh).nav.items == n.items
    ensures Inv(Run(n, inputs, max, refresh).nav, max)
    ensures Run(n, inputs, max, refresh).Selected? ==>
      Run(n, inputs, max, refresh).item == Pick(Run(n, inputs, max, refresh).nav)
    decreases |inputs|
  {
    if inputs != [] {
      TickKeepsInv(n, inputs[0], max, refresh);
      var o := Tick(n, inputs[0], max, refresh);
      if o.Waiting? {
        RunKeepsInv(o.nav, inputs[1..], max, refresh);
      } else if o.Selected? {
        assert Refresh(n, refresh).items == n.items;
      }
    }
  }

  /** So on a fixed non-empty list Select never takes the out-of-range branch. */
  lemma SelectNeverMisses<T>(items: seq<T>, inputs: seq<Buttons>, max: int, refresh: Option<nat -> seq<T>>)
    requires max >= 1 && |items| > 0 && Fixed(refresh, items)
    ensures Run(Nav(items, 0, 0, 0), inputs, max, refresh).Selected? ==>
      Run(Nav(items, 0, 0, 0), inputs, max, refresh).item.Some?
  {
    InitialInv(items, max);
    RunKeepsInv(Nav(items, 0, 0, 0), inputs, max, refresh);
  }

  /** Under the invariant the cursor line is one of the rows `fillListBox` draws. */
  lemma SelectorOnDrawnRow<T>(n: Nav<T>, max: int)
    requires Inv(n, max) && |n.items| > 0
    ensures n.line < VisibleCount(|n.items|, n.start, max)
  {
  }

  /** Three items and room for five: three Downs reach the last line, a fourth changes nothing. */
  lemma DownExample()
    ensures Down(Nav([10, 20, 30], 0, 0, 0), 5) == Nav([10, 20, 30], 0, 1, 0)
    ensures Down(Nav([10, 20, 30], 0, 1, 0), 5) == Nav([10, 20, 30], 0, 2, 0)
    ensures Down(Nav([10, 20, 30], 0, 2, 0), 5) == Nav([10, 20, 30], 0, 2, 0)
  {
  }

  /** A refresh at tick 10 that shrinks five items to two, while the cursor is on the fifth. */
  function ShrinkingRefresh(k: nat): seq<int>
  {
    if k == 0 then [1, 2, 3, 4, 5] else [1, 2]
  }

  /**
   * The refresh neither resets nor clamps the cursor: after four Downs and
   * six idle ticks on five items, a refresh down to two items leaves the
   * cursor past the end, the invariant broken, and Select returns `None`.
   */
  lemma ShrinkingRefreshBreaksInv()
    ensures Run(Nav([1, 2, 3, 4, 5], 0, 0, 0), [DownButton, DownButton, DownButton, DownButton],
                5, Some(ShrinkingRefresh))
      == Waiting(Nav([1, 2, 3, 4, 5], 0, 4, 4))
    ensures Run(Nav([1, 2, 3, 4, 5], 0, 4, 4), [NoButton, NoButton, NoButton, NoButton, NoButton, NoButton],
                5, Some(ShrinkingRefresh))
      == Waiting(Nav([1, 2, 3, 4, 5], 0, 4, 10))
    ensures Inv(Nav([1, 2, 3, 4, 5], 0, 4, 10), 5)
    ensures Tick(Nav([1, 2, 3, 4, 5], 0, 4, 10), SelectButton, 5, Some(ShrinkingRefresh))
      == Selected(None, Nav([1, 2], 0, 4, 11))
    ensures !Inv(Nav([1, 2], 0, 4, 11), 5)
  {
    var r := Some(ShrinkingRefresh);
    var five := [1, 2, 3, 4, 5];
    var downs := [DownButton, DownButton, DownButton, DownButton];
    assert Tick(Nav(five, 0, 0, 0), DownButton, 5, r) == Waiting(Nav(five, 0, 1, 1));
    assert Run(Nav(five, 0, 0, 0), downs, 5, r) == Run(Nav(five, 0, 1, 1), downs[1..], 5, r);
    assert Run(Nav(five, 0, 1, 1), downs[1..], 5, r) == Run(Nav(five, 0, 2, 2), downs[2..], 5, r);
    assert Run(Nav(five, 0, 2, 2), downs[2..], 5, r) == Run(Nav(five, 0, 3, 3), downs[3..], 5, r);
    assert Run(Nav(five, 0, 3, 3), downs[3..], 5, r) == Run(Nav(five, 0, 4, 4), [], 5, r);
    assert [NoButton, NoButton, NoButton, NoButton, NoButton, NoButton] == seq(6, _ => NoButton);
    IdleTicks(Nav(five, 0, 4, 4), 6, 5, r);
  }

  /** Idle ticks on a list the refresh leaves alone only advance the count. */
  lemma {:induction false} IdleTicks(n: Nav<int>, k: nat, max: int, refresh: Option<nat -> seq<int>>)
    requires forall j: nat :: n.count <= j < n.count + k && j % 10 == 0 && refresh.Some? ==> refresh.value(j) == n.items
    ensures Run(n, seq(k, _ => NoButton), max, refresh) == Waiting(n.(count := n.count + k))
    decreases k
  {
    if k > 0 {
      var idle := seq(k, _ => NoButton);
      assert idle[0] == NoButton && idle[1..] == seq(k - 1, _ => NoButton);
      if refresh.Some? && n.count % 10 == 0 {
        assert refresh.value(n.count) == n.items;
      }
      assert Tick(n, NoButton, max, refresh) == Waiting(n.(count := n.count + 1));
      IdleTicks(n.(count := n.count + 1), k - 1, max, refresh);
    }
  }

  /** A `ListBoxPanel`: a panel (its base class) together with the list it shows. */
  class ListBoxPanel<T> {
    const panel: Panel
    var itemList: seq<T>
    var tabs: seq<int>
    const maxTextEntries: int

    constructor (display: Display, title: Option<string>)
      ensures fresh(panel) && panel.Valid()
      ensures panel.display == display && panel.title == (if title.Some? then title.value else "")
      ensures panel.hasTitle <==> panel.title != ""
      ensures panel.startx == TextXOffset && panel.starty == TextTop(panel.hasTitle)
      ensures panel.height == AreaHeight(display.listHeight, panel.hasTitle)
      ensures itemList == [] && tabs == []
      ensures maxTextEntries == MaxEntries(display.listHeight, panel.hasTitle)
    {
      var p := new Panel(display, title);
      panel := p;
      itemList := [];
      tabs := [];
      maxTextEntries := (p.height - p.starty) / TextHeight + 2;
    }

    /** `setList`: the tab stops change only when new ones are given. */
    method SetList(itemList: seq<T>, tabs: Option<seq<int>>)
      modifies this`itemList, this`tabs
      ensures this.itemList == itemList
      ensures this.tabs == if tabs.Some? then tabs.value else old(this.tabs)
    {
      this.itemList := itemList;
      if tabs.Some? {
        this.tabs := tabs.value;
      }
    }

    /**
     * `fillListBox`: the rows drawn from `start` on, one text line apart, at
     * most `maxTextEntries` of them (and at least one when there is an item).
     */
    method FillListBox(start: nat) returns (rows: seq<Row<T>>)
      ensures |rows| == VisibleCount(|itemList|, start, maxTextEntries)
      ensures forall k :: 0 <= k < |rows| ==>
        rows[k] == Row(itemList[start + k], panel.startx, panel.starty + k * TextHeight)
    {
      var xOffset := panel.startx;
      var yOffset := panel.starty;
      var count := 0;
      rows := [];
      var i := start;
      while i < |itemList|
        invariant start <= i && (i <= |itemList| || i == start)
        invariant count == |rows| == i - start
        invariant |rows| < Max(maxTextEntries, 1)
        invariant yOffset == panel.starty + |rows| * TextHeight
        invariant forall k :: 0 <= k < |rows| ==>
          rows[k] == Row(itemList[start + k], panel.startx, panel.starty + k * TextHeight)
      {
        rows := rows + [Row(itemList[i], xOffset, yOffset)];
        yOffset := yOffset + TextHeight;
        if count >= maxTextEntries - 1 {
          break;
        }
        count := count + 1;
        i := i + 1;
      }
    }

    /**
     * `draw` over the button readings `inputs`: the loop of `Run` from the
     * top of the current list, returning the picked item and whether it was
     * still waiting when the readings ran out.
     */
    method Draw(inputs: seq<Buttons>, refresh: Option<nat -> seq<T>>) returns (item: Option<T>, waiting: bool)
      modifies this`itemList
      ensures itemList == Run(Nav(old(itemList), 0, 0, 0), inputs, maxTextEntries, refresh).nav.items
      ensures waiting <==> Run(Nav(old(itemList), 0, 0, 0), inputs, maxTextEntries, refresh).Waiting?
      ensures item == Returned(Run(Nav(old(itemList), 0, 0, 0), inputs, maxTextEntries, refresh))
    {
      ghost var o := Run(Nav(itemList, 0, 0, 0), inputs, maxTextEntries, refresh);
      var items := itemList;
      var start: nat := 0;
      var line: nat := 0;
      var count: nat := 0;
      item := None;
      waiting := true;
      var i := 0;
      while waiting && i < |inputs|
        invariant 0 <= i <= |inputs| && itemList == items
        invariant waiting ==> item == None && o == Run(Nav(items, start, line, count), inputs[i..], maxTextEntries, refresh)
        invariant !waiting ==> !o.Waiting? && items == o.nav.items && item == Returned(o)
        decreases |inputs| - i
      {
        RunFrom(Nav(items, start, line, count), inputs, i, maxTextEntries, refresh);
        ghost var n := Nav(items, start, line, count);
        if refresh.Some? && count % 10 == 0 {
          items := refresh.value(count);
          itemList := items;
        }
        ghost var m := Nav(items, start, line, count);
        assert m == Refresh(n, refresh);
        var b := inputs[i];
        if b.up {
          if line > 0 {
            line := line - 1;
          } else if start > 0 {
            start := start - 1;
          }
        } else if b.down {
          if line < maxTextEntries - 1 && line < |items| - 1 {
            line := line + 1;
          } else if |items| - start > maxTextEntries {
            start := start + 1;
          }
        } else if b.select {
          if line + start < |items| {
            item := Some(items[line + start]);
          } else {
            item := None;
          }
          waiting := false;
        } else if b.cancel {
          item := None;
          waiting := false;
        }
        count := count + 1;
        i := i + 1;
        assert Press(m, b, maxTextEntries).nav == Nav(items, start, line, count);
      }
    }
  }
}
