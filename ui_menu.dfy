// Model of the scrolling menu widget (firmware/application/ui_menu.cpp):
// a list of item views, the highlighted index, the scroll offset of the
// visible window and the blinking "more items" arrow.

module UiMenu {

  /** Height in pixels of one menu row (item_height, also the divisor of displayed_max_). */
  const ItemHeight: int := 24

  /** The item data a row shows; only what the logic looks at is kept. */
  datatype MenuItem = MenuItem(text: string, hasAction: bool)

  datatype KeyEvent = Up | Down | Left | Right | Select | OtherKey

  /** The user callback, if any, that a key press invoked. */
  datatype Callback = NoCallback | ItemSelected(index: nat) | LeftPressed

  /** Two's-complement reinterpretation of an integer as int32_t. */
  function ToInt32(x: int): (r: int)
    ensures -0x8000_0000 <= r < 0x8000_0000
    ensures -0x8000_0000 <= x < 0x8000_0000 ==> r == x
    ensures (x - r) % 0x1_0000_0000 == 0
  {
    var k := (x + 0x8000_0000) / 0x1_0000_0000;
    assert x + 0x8000_0000 == k * 0x1_0000_0000 + (x + 0x8000_0000) % 0x1_0000_0000;
    assert x - ((x + 0x8000_0000) % 0x1_0000_0000 - 0x8000_0000) == k * 0x1_0000_0000;
    (x + 0x8000_0000) % 0x1_0000_0000 - 0x8000_0000
  }

  /** Row `i` is inside the window of `rows` rows that starts at `offset`. */
  predicate InWindow(i: int, offset: int, rows: int)
  {
    offset <= i < offset + rows
  }

  /**
   * The offset set_highlighted leaves after selecting `target`: shift the window
   * so that `target` becomes its last row when it lies below the window, its
   * first row when it lies above it, and leave it alone otherwise.
   */
  function Scroll(target: nat, offset: nat, rows: nat): (r: nat)
    ensures rows >= 1 ==> InWindow(target, r, rows)
    ensures InWindow(target, offset, rows) ==> r == offset
    ensures rows >= 1 && target >= offset + rows ==> r + rows - 1 == target
    ensures target < offset ==> r == target
  {
    if target > offset && target - offset >= rows then target - rows + 1
    else if target < offset then target
    else offset
  }

  /** The scroll is minimal: no window holding `target` lies closer to the old offset. */
  lemma ScrollIsMinimal(target: nat, offset: nat, rows: nat, other: int)
    requires rows >= 1 && InWindow(target, other, rows)
    ensures var r := Scroll(target, offset, rows);
            (if r >= offset then r - offset else offset - r) <=
            (if other >= offset then other - offset else offset - other)
  {
  }

  /** Vertical pixel position of row `i` relative to the top of the menu. */
  function RowY(i: int, offset: int): int
  {
    (i - offset) * ItemHeight
  }

  /** A row at pixel `y` does not fit in a viewport `height` pixels high. */
  predicate RowHidden(y: int, height: int)
  {
    y < 0 || y > height - ItemHeight
  }

  /** There are more items than the window starting at `offset` shows. */
  predicate Overflows(count: int, rows: int, offset: int)
  {
    count > rows + offset
  }

  /** The layout rule and the window agree: a row is hidden exactly when it is outside the window. */
  lemma HiddenIffOutsideWindow(i: int, offset: int, height: nat)
    ensures RowHidden(RowY(i, offset), height) <==> !InWindow(i, offset, height / ItemHeight)
  {
    var d := i - offset;
    var rows := height / ItemHeight;
    assert height == rows * ItemHeight + height % ItemHeight;
    if d < 0 {
      assert d * ItemHeight < 0;
    } else if d < rows {
      assert d + 1 <= rows;
      assert (d + 1) * ItemHeight <= rows * ItemHeight;
    } else {
      assert (d + 1) * ItemHeight >= (rows + 1) * ItemHeight;
    }
  }

  /** The "more" arrow shows exactly when some item at or below the top row is hidden. */
  lemma MoreIffHiddenBelow(count: int, offset: int, height: nat)
    ensures Overflows(count, height / ItemHeight, offset) <==>
            exists i :: offset <= i < count && RowHidden(RowY(i, offset), height)
  {
    var rows := height / ItemHeight;
    if Overflows(count, rows, offset) {
      HiddenIffOutsideWindow(offset + rows, offset, height);
    }
    if exists i :: offset <= i < count && RowHidden(RowY(i, offset), height) {
      var i :| offset <= i < count && RowHidden(RowY(i, offset), height);
      HiddenIffOutsideWindow(i, offset, height);
    }
  }

  predicate Distinct<T(==)>(s: seq<T>)
  {
    forall i, j | 0 <= i < j < |s| :: s[i] != s[j]
  }

  /** One row of the menu (MenuItemView). */
  class MenuItemView {
    const item: MenuItem
    var highlighted: bool
    var hidden: bool
    /** Top of the row's parent rectangle, in pixels. */
    var y: int

    constructor (item: MenuItem)
      ensures this.item == item && !highlighted && !hidden && y == 0
    {
      this.item := item;
      highlighted, hidden, y := false, false, 0;
    }

    method Highlight()
      modifies this`highlighted
      ensures highlighted
    {
      highlighted := true;
    }

    method Unhighlight()
      modifies this`highlighted
      ensures !highlighted
    {
      highlighted := false;
    }

    /** Reports whether select() calls the item's on_select callback; the callback itself is not run. */
    method Select() returns (fired: bool)
      ensures fired == item.hasAction
    {
      fired := item.hasAction;
    }
  }

  /** The menu (MenuView). */
  class MenuView {
    /** Viewport height in pixels. */
    const height: int
    /** Number of rows the viewport shows (displayed_max_). */
    const displayedMax: nat
    const keepHighlight: bool
    var items: seq<MenuItemView>
    var highlighted: nat
    var offset: nat
    var more: bool
    var blink: bool
    /** Foreground of the "more" arrow: white when true, black when false. */
    var arrowWhite: bool
    /** Whether on_left is set. */
    var hasOnLeft: bool

    /** What holds between any two public operations, apart from the layout. */
    ghost predicate Framed()
      reads this
    {
      height >= 0 && displayedMax == height / ItemHeight && Distinct(items)
    }

    /** Every row sits at its place for the current offset, and `more` is up to date. */
    ghost predicate LaidOut()
      reads this, items
    {
      more == Overflows(|items|, displayedMax, offset) &&
      forall i :: 0 <= i < |items| ==>
        items[i].y == RowY(i, offset) && items[i].hidden == RowHidden(items[i].y, height)
    }

    /** Single selection: no row other than the one at the highlighted index is highlighted. */
    ghost predicate SingleSelection()
      reads this, items
    {
      forall j :: 0 <= j < |items| && items[j].highlighted ==> j == highlighted
    }

    ghost predicate Valid()
      reads this, items
    {
      Framed() && LaidOut() && SingleSelection() &&
      (displayedMax >= 1 ==> InWindow(highlighted, offset, displayedMax))
    }

    /** The list of items the menu holds. */
    function Entries(): (r: seq<MenuItem>)
      reads this
      ensures |r| == |items|
    {
      var s := items;
      seq(|s|, i requires 0 <= i < |s| => s[i].item)
    }

    /** set_highlighted(v) may be called: it reads the highlighted item unless it fails at once. */
    predicate Selectable(v: int)
      reads this
    {
      v >= 0 ==> highlighted < |items|
    }

    /** Nothing observable about the menu changed. */
    twostate predicate Unchanged()
      reads this, items
    {
      items == old(items) && highlighted == old(highlighted) && offset == old(offset) &&
      more == old(more) && blink == old(blink) && arrowWhite == old(arrowWhite) &&
      forall j :: 0 <= j < |items| ==>
        items[j].highlighted == old(items[j].highlighted) &&
        items[j].hidden == old(items[j].hidden) && items[j].y == old(items[j].y)
    }

    /**
     * The effect of set_highlighted(v): a negative index changes nothing; otherwise
     * the index is clamped to the last item, the window scrolls by Scroll, the
     * blink restarts when it scrolled to a state with more items below, and the
     * highlight moves from the old item to the new one.
     */
    twostate predicate HighlightMoved(v: int)
      reads this, items
    {
      if v < 0 then Unchanged()
      else
        items == old(items) && arrowWhite == old(arrowWhite) &&
        highlighted == (if v >= |items| then |items| - 1 else v) &&
        offset == Scroll(highlighted, old(offset), displayedMax) &&
        blink == (if offset != old(offset) && more then true else old(blink)) &&
        forall j :: 0 <= j < |items| ==>
          items[j].highlighted == (j == highlighted || (j != old(highlighted) && old(items[j].highlighted)))
    }

    constructor (height: int, keepHighlight: bool)
      requires height >= 0
      ensures Valid()
      ensures this.height == height && displayedMax == height / ItemHeight
      ensures this.keepHighlight == keepHighlight
      ensures items == [] && highlighted == 0 && offset == 0
      ensures !more && !blink && !arrowWhite && !hasOnLeft
    {
      this.height := height;
      displayedMax := height / ItemHeight;
      this.keepHighlight := keepHighlight;
      items := [];
      highlighted, offset := 0, 0;
      more, blink, arrowWhite, hasOnLeft := false, false, false, false;
    }

    /** Blinks the "more" arrow: white on this tick iff more items and the blink phase was on. */
    method OnTickSecond()
      requires Valid()
      modifies this`arrowWhite, this`blink
      ensures Valid()
      ensures arrowWhite == (more && old(blink))
      ensures blink == !old(blink)
    {
      if more && blink {
        arrowWhite := true;
      } else {
        arrowWhite := false;
      }
      blink := !blink;
    }

    /** Recomputes `more`, every row's position and its hidden flag. */
    method UpdateItems()
      requires Framed()
      modifies this`more, this`blink, items
      ensures LaidOut()
      ensures blink == (if more then true else old(blink))
      ensures forall j :: 0 <= j < |items| ==> items[j].highlighted == old(items[j].highlighted)
    {
      if |items| > displayedMax + offset {
        more := true;
        blink := true;
      } else {
        more := false;
      }
      var i := 0;
      while i < |items|
        invariant 0 <= i <= |items|
        invariant forall j :: 0 <= j < i ==>
          items[j].y == RowY(j, offset) && items[j].hidden == RowHidden(items[j].y, height)
        invariant forall j :: 0 <= j < |items| ==> items[j].highlighted == old(items[j].highlighted)
        invariant more == Overflows(|items|, displayedMax, offset)
        invariant blink == (if more then true else old(blink))
      {
        var yPos := (i - offset) * ItemHeight;
        items[i].y := yPos;
        items[i].hidden := yPos < 0 || yPos > height - ItemHeight;
        i := i + 1;
      }
    }

    /** Empties the list; the highlighted index and the offset are kept as they were. */
    method Clear()
      requires Valid()
      modifies this`items, this`more, this`blink
      ensures Valid()
      ensures items == [] && highlighted == old(highlighted) && offset == old(offset)
      ensures !more && blink == old(blink)
    {
      items := [];
      UpdateItems();
    }

    /** Appends one item at the end of the list. */
    method AddItem(entry: MenuItem)
      requires Valid()
      modifies this`items, this`more, this`blink, items
      ensures Valid()
      ensures |items| == |old(items)| + 1 && items[..|old(items)|] == old(items)
      ensures Entries() == old(Entries()) + [entry]
      ensures fresh(items[|items| - 1]) && !items[|items| - 1].highlighted
      ensures highlighted == old(highlighted) && offset == old(offset)
      ensures forall j :: 0 <= j < |old(items)| ==> items[j].highlighted == old(items[j].highlighted)
      ensures blink == (if more then true else old(blink))
    {
      var view := new MenuItemView(entry);
      items := items + [view];
      UpdateItems();
    }

    /** Appends the given items, in order, at the end of the list. */
    method AddItems(entries: seq<MenuItem>)
      requires Valid()
      modifies this`items, this`more, this`blink, items
      ensures Valid()
      ensures |items| == |old(items)| + |entries| && items[..|old(items)|] == old(items)
      ensures Entries() == old(Entries()) + entries
      ensures forall j :: |old(items)| <= j < |items| ==> fresh(items[j]) && !items[j].highlighted
      ensures highlighted == old(highlighted) && offset == old(offset)
      ensures forall j :: 0 <= j < |old(items)| ==> items[j].highlighted == old(items[j].highlighted)
      ensures blink == (if more && |entries| > 0 then true else old(blink))
    {
      var k := 0;
      while k < |entries|
        invariant 0 <= k <= |entries|
        invariant Valid()
        invariant |items| == |old(items)| + k && items[..|old(items)|] == old(items)
        invariant Entries() == old(Entries()) + entries[..k]
        invariant forall j :: |old(items)| <= j < |items| ==> fresh(items[j]) && !items[j].highlighted
        invariant highlighted == old(highlighted) && offset == old(offset)
        invariant forall j :: 0 <= j < |old(items)| ==> items[j].highlighted == old(items[j].highlighted)
        invariant blink == (if more && k > 0 then true else old(blink))
      {
        AddItem(entries[k]);
        assert entries[..k + 1] == entries[..k] + [entries[k]];
        k := k + 1;
      }
      assert entries[..k] == entries;
    }

    /** The window adjustment of set_highlighted: scroll minimally so that `target` is shown. */
    method ScrollTo(target: nat)
      requires Framed() && LaidOut()
      modifies this`offset, this`more, this`blink, items
      ensures Framed() && LaidOut()
      ensures offset == Scroll(target, old(offset), displayedMax)
      ensures blink == (if offset != old(offset) && more then true else old(blink))
      ensures forall j :: 0 <= j < |items| ==> items[j].highlighted == old(items[j].highlighted)
    {
      if target > offset && target - offset >= displayedMax {
        offset := target - displayedMax + 1;
        UpdateItems();
      } else if target < offset {
        offset := target;
        UpdateItems();
      }
    }

    /** The highlight step of set_highlighted: unhighlight the old row, then highlight row `target`. */
    method MoveHighlight(target: nat)
      requires Framed() && LaidOut() && highlighted < |items| && target < |items|
      modifies this`highlighted, items
      ensures Framed() && LaidOut() && highlighted == target
      ensures forall j :: 0 <= j < |items| ==>
        items[j].highlighted == (j == target || (j != old(highlighted) && old(items[j].highlighted)))
    {
      var previous := items[highlighted];
      previous.Unhighlight();
      highlighted := target;
      var current := items[highlighted];
      current.Highlight();
      forall j | 0 <= j < |items|
        ensures items[j].highlighted == (j == target || (j != old(highlighted) && old(items[j].highlighted)))
      {
        if j != target && j != old(highlighted) {
          assert items[j] != previous && items[j] != current;
        }
      }
    }

    /** Highlights item `v`, clamped to the last item; fails on a negative index. */
    method SetHighlighted(v: int) returns (ok: bool)
      requires Valid() && Selectable(v)
      modifies this`highlighted, this`offset, this`more, this`blink, items
      ensures Valid()
      ensures ok == (v >= 0)
      ensures HighlightMoved(v)
      ensures ok ==> forall j :: 0 <= j < |items| ==> (items[j].highlighted <==> j == highlighted)
    {
      if v < 0 {
        return false;
      }
      var target := if v >= |items| then |items| - 1 else v;
      ScrollTo(target);
      MoveHighlight(target);
      ok := true;
    }

    /** Gaining focus shows the highlighted item as highlighted. */
    method OnFocus()
      requires Valid() && highlighted < |items|
      modifies items
      ensures Valid()
      ensures forall j :: 0 <= j < |items| ==>
        items[j].highlighted == (j == highlighted || old(items[j].highlighted))
    {
      items[highlighted].Highlight();
    }

    /** Losing focus clears the highlight, unless the menu keeps it always visible. */
    method OnBlur()
      requires Valid() && (!keepHighlight ==> highlighted < |items|)
      modifies items
      ensures Valid()
      ensures forall j :: 0 <= j < |items| ==>
        items[j].highlighted == (if !keepHighlight && j == highlighted then false else old(items[j].highlighted))
    {
      if !keepHighlight {
        items[highlighted].Unhighlight();
      }
    }

    /** Key handling: Up and Down move the highlight, Select and Right run the item, Left runs on_left. */
    method OnKey(key: KeyEvent) returns (handled: bool, fired: Callback)
      requires Valid()
      requires key == Up ==> Selectable(ToInt32(highlighted - 1))
      requires key == Down ==> Selectable(ToInt32(highlighted + 1))
      requires key == Select || key == Right ==> highlighted < |items|
      modifies this`highlighted, this`offset, this`more, this`blink, items
      ensures Valid()
      ensures key == Up ==>
        handled == (ToInt32(old(highlighted) - 1) >= 0) && HighlightMoved(ToInt32(old(highlighted) - 1))
      ensures key == Down ==>
        handled == (ToInt32(old(highlighted) + 1) >= 0) && HighlightMoved(ToInt32(old(highlighted) + 1))
      ensures key == Up || key == Down ==> fired == NoCallback
      ensures key != Up && key != Down ==> Unchanged()
      ensures key == Select || key == Right ==>
        handled && fired == (if items[highlighted].item.hasAction then ItemSelected(highlighted) else NoCallback)
      ensures key == Left ==> handled && fired == (if hasOnLeft then LeftPressed else NoCallback)
      ensures key == OtherKey ==> !handled && fired == NoCallback
    {
      fired := NoCallback;
      match key
      case Up =>
        handled := SetHighlighted(ToInt32(highlighted - 1));
      case Down =>
        handled := SetHighlighted(ToInt32(highlighted + 1));
      case Select =>
        var ran := items[highlighted].Select();
        if ran {
          fired := ItemSelected(highlighted);
        }
        handled := true;
      case Right =>
        var ran := items[highlighted].Select();
        if ran {
          fired := ItemSelected(highlighted);
        }
        handled := true;
      case Left =>
        if hasOnLeft {
          fired := LeftPressed;
        }
        handled := true;
      case OtherKey =>
        handled := false;
    }

    /** An encoder turn of `delta` detents moves the highlight by `delta`; always handled. */
    method OnEncoder(delta: int) returns (handled: bool)
      requires Valid() && Selectable(ToInt32(highlighted + delta))
      modifies this`highlighted, this`offset, this`more, this`blink, items
      ensures Valid()
      ensures handled
      ensures HighlightMoved(ToInt32(old(highlighted) + delta))
    {
      var _ := SetHighlighted(ToInt32(highlighted + delta));
      handled := true;
    }
  }

  /** In a consistent menu whose window is at least one row high, the highlighted item is on screen. */
  lemma HighlightedItemVisible(m: MenuView)
    requires m.Valid() && m.displayedMax >= 1 && m.highlighted < |m.items|
    ensures !m.items[m.highlighted].hidden
  {
    HiddenIffOutsideWindow(m.highlighted, m.offset, m.height);
  }

  /** Ten items in a five-row menu: selecting item 7 scrolls so that it is the last visible row. */
  method ScrollScenario()
  {
    var m := new MenuView(5 * ItemHeight, false);
    var e := MenuItem("item", false);
    m.AddItems([e, e, e, e, e, e, e, e, e, e]);
    assert m.displayedMax == 5 && |m.items| == 10;
    var ok := m.SetHighlighted(7);
    assert ok && m.highlighted == 7 && m.offset == 3;
    assert !m.items[7].hidden && m.items[8].hidden;
    var up := m.SetHighlighted(-1);
    assert !up && m.highlighted == 7 && m.offset == 3;
  }
}
