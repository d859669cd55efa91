# PortaPack menu and map widgets — a Dafny model

This project models two on-screen widgets of the PortaPack firmware:

- **The scrolling menu** (`firmware/application/ui_menu.cpp`, module `UiMenu`). A
  `MenuView` owns an ordered list of `MenuItemView` rows. Each row has a highlighted
  flag, a hidden flag and a vertical position. The menu also keeps the highlighted
  index, the scroll offset (the first visible row) and the number of rows the
  viewport shows (`displayed_max_`, the viewport height divided by 24). Two flags,
  `more` and `blink`, drive the blinking "more items" arrow. Both widgets are classes
  whose methods update their fields in place, as the C++ does.
  `MenuView.Valid()` is the object invariant:
  - the item objects are distinct;
  - single selection: no row other than the one at the highlighted index is
    highlighted;
  - every row sits at `(i - offset) * 24` and is hidden exactly when it does not fit
    in the viewport;
  - `more` says whether items lie below the window;
  - when the window is at least one row high, the highlighted index lies inside it.

  Every public operation keeps this invariant.
- **The map screen** (`firmware/application/ui_geomap.cpp`, module `UiGeomap`), its
  integer part only:
  - `GeoMap` keeps the top-left pixel of the view into a flat raster file. `Move`
    caps that pixel. `Paint` redraws only when the view moved, and issues one seek
    and read per view row. `Init` reads the 2-byte width and height header and
    derives the centre. File requests are recorded in `log` as (offset, length)
    pairs.
  - `GeoPos` holds the altitude and latitude/longitude entry fields. Its change
    callback is gated by `report_change`, and each callback the gate lets through is
    recorded in `reports`.
  - `GeoMapView` wires the two together. In the pan handler, moving the map pushes
    the new coordinate into the fields with reporting switched off.

Two preconditions that the C++ relies on but never checks are stated explicitly:
- `SetHighlighted(v)` with `v >= 0` needs the highlighted index to name an existing
  item (`Selectable`). On an empty list the source clamps to `-1`, and its
  `item_view(highlighted_)` call then reads outside the list.
- `Clear` keeps `highlighted` and `offset`, so `OnFocus`, `OnBlur` and the Select key
  need `highlighted < |items|`.

Index arithmetic follows the source. `highlighted() - 1` and `highlighted() + delta`
are computed on `size_t` and passed as `int32_t`; `ToInt32` models that cast. So Up
at index 0 asks for index -1, fails, and changes nothing.

The vertical cap in `GeoMap::move` is reproduced as written. It tests
`y_pos > map_height + height`, but assigns `map_height - height`.
`VerticalCapLetsPaintReadPastRaster` shows the consequence: a projected y equal to
the threshold is not capped, and the row reads of a repaint from that position
(`RowReads`, which `Paint` issues once the position has changed) go past the end of
the raster. `CappedViewInsideRaster` shows the other side: when the cap does fire, the
view ends on the raster's last row.

Values that come from declarations outside these two files:
- `item_height` is taken as 24, the divisor used for `displayed_max_`.
- A new menu starts with `highlighted_ = offset_ = 0` and `more_ = blink_ = false`.
- `report_change` starts true.
- The map's initial pixel position, previous position, size, mode and dirty flag
  are left unspecified.
- Each number field is assumed to invoke its `on_change` every time its value is
  set. The clipping that `set_value` applies to each field's range is not modelled.
- A new `MenuItemView` is unhighlighted, visible and at y = 0.
- A new `GeoMap` is not highlighted.

## Model

| member | source | states |
|---|---|---|
| `UiMenu.ToInt32` | firmware/application/ui_menu.cpp:223-229 | the result is the int32 value congruent to its argument modulo 2^32, and equals the argument when that is already in int32 range |
| `UiMenu.Scroll` | firmware/application/ui_menu.cpp:198-206 | with a window of at least one row, the new offset's window contains the target; a target already in the window leaves the offset alone; a target above the window becomes its first row; a target below it becomes its last row |
| `UiMenu.ScrollIsMinimal` | firmware/application/ui_menu.cpp:198-206 | no other window containing the target lies closer to the old offset than the one `Scroll` picks |
| `UiMenu.HiddenIffOutsideWindow` | firmware/application/ui_menu.cpp:166-174 | with rows 24 pixels high and `displayed_max_ = height / 24`, row i is hidden by the layout rule exactly when it lies outside `[offset, offset + displayed_max_)` |
| `UiMenu.MoreIffHiddenBelow` | firmware/application/ui_menu.cpp:159-174 | `count > displayed_max_ + offset` (the "more" arrow) holds exactly when some item at or below the top row is hidden |
| `UiMenu.HighlightedItemVisible` | firmware/application/ui_menu.cpp:198-210 | in a consistent menu with a non-empty window, the highlighted item, when it exists, is not hidden |
| `UiMenu.MenuItemView.constructor` | firmware/application/ui_menu.cpp:141 | a new row carries its item and starts unhighlighted, visible and at y = 0 |
| `UiMenu.MenuItemView.Highlight` | firmware/application/ui_menu.cpp:36-39 | sets only the row's highlighted flag |
| `UiMenu.MenuItemView.Unhighlight` | firmware/application/ui_menu.cpp:41-44 | clears only the row's highlighted flag |
| `UiMenu.MenuItemView.Select` | firmware/application/ui_menu.cpp:30-34 | the item's callback runs exactly when the item has one |
| `UiMenu.MenuView.constructor` | firmware/application/ui_menu.cpp:91-110 | `displayed_max_` is the viewport height divided by 24; the menu starts empty, consistent, at index 0 and offset 0, with the arrow black |
| `UiMenu.MenuView.OnTickSecond` | firmware/application/ui_menu.cpp:119-128 | the arrow turns white exactly when `more_ && blink_` held before the tick, and `blink_` toggles |
| `UiMenu.MenuView.UpdateItems` | firmware/application/ui_menu.cpp:155-179 | `more_` becomes `count > displayed_max_ + offset_`, `blink_` is set when it holds and kept otherwise; item i is placed at `(i - offset_) * 24` and hidden iff that row is above 0 or below `height - 24`; highlight flags are untouched |
| `UiMenu.MenuView.Clear` | firmware/application/ui_menu.cpp:130-138 | the list becomes empty, `highlighted_` and `offset_` are kept, `more_` is false, and the invariant still holds |
| `UiMenu.MenuView.AddItem` | firmware/application/ui_menu.cpp:140-147 | exactly one fresh unhighlighted row is appended at the end, earlier rows keep their objects and flags, `highlighted_` and `offset_` do not change, and the layout is recomputed |
| `UiMenu.MenuView.AddItems` | firmware/application/ui_menu.cpp:149-153 | the items are appended in the given order, with the same guarantees as one `AddItem` per item |
| `UiMenu.MenuView.ScrollTo` | firmware/application/ui_menu.cpp:198-206 | the offset becomes `Scroll(target, offset, displayed_max_)`, and the layout is recomputed when it moved |
| `UiMenu.MenuView.MoveHighlight` | firmware/application/ui_menu.cpp:208-210 | the old row loses its highlight, row `target` gains it, every other row keeps its flag, and the layout is untouched |
| `UiMenu.MenuView.SetHighlighted` | firmware/application/ui_menu.cpp:189-213 | a negative index returns false and changes nothing; otherwise it returns true, the index is clamped to `count - 1`, the window scrolls by `Scroll`, the old row is unhighlighted and the new one highlighted, and on success exactly the new row is highlighted, single selection being part of the invariant |
| `UiMenu.MenuView.OnFocus` | firmware/application/ui_menu.cpp:215-217 | highlights the highlighted row and changes nothing else |
| `UiMenu.MenuView.OnBlur` | firmware/application/ui_menu.cpp:219-221 | unhighlights the highlighted row only when the menu does not keep its highlight |
| `UiMenu.MenuView.OnKey` | firmware/application/ui_menu.cpp:223-245 | Up and Down call `SetHighlighted` with the index minus or plus one, cast to int32, and return its result (so Up at index 0 fails with no change); Select and Right run the highlighted item's callback; Left runs `on_left` when it is set; other keys return false; for keys other than Up and Down the menu's own code changes nothing (the callbacks are reported, not run) |
| `UiMenu.MenuView.OnEncoder` | firmware/application/ui_menu.cpp:247-250 | moves the highlight as `SetHighlighted(index + delta)` does, and always returns true |
| `UiGeomap.RowReads` | firmware/application/ui_geomap.cpp:124-129 | one request per view row, in increasing row order; row k reads `2 * width` bytes at `4 + 2 * (x + map_width * (y + k))` |
| `UiGeomap.RowReadsAscend` | firmware/application/ui_geomap.cpp:125-127 | when the view is no wider than the map, each row's read ends before the next row's read begins |
| `UiGeomap.RowInsideRaster` | firmware/application/ui_geomap.cpp:126-127 | a row segment of the view that lies inside the map is read at or after the 4-byte header and ends within the raster |
| `UiGeomap.RowReadsInsideRaster` | firmware/application/ui_geomap.cpp:125-127 | a view lying inside the map reads only bytes of the raster, after the 4-byte header and before its end |
| `UiGeomap.CappedViewInsideRaster` | firmware/application/ui_geomap.cpp:176-180 | when the vertical cap fires, a non-negative x and a map at least as large as the view give a repaint that stays inside the raster |
| `UiGeomap.VerticalCapLetsPaintReadPastRaster` | firmware/application/ui_geomap.cpp:179-180 | a projected `y_pos` of exactly `map_height + height` is not capped, and the last row a repaint then reads starts at or after the end of the raster |
| `UiGeomap.GeoMap.constructor` | firmware/application/ui_geomap.cpp:110-115 | the view keeps its rectangle size, is not highlighted, has no `on_move` and has issued no file request |
| `UiGeomap.GeoMap.Init` | firmware/application/ui_geomap.cpp:183-199 | when `open` reports an error it returns false and reads nothing; otherwise it reads 2 bytes of width and then 2 of height, and sets the centre to half of each, rounded down |
| `UiGeomap.GeoMap.SetMode` | firmware/application/ui_geomap.cpp:201-203 | records the mode |
| `UiGeomap.GeoMap.SetDirty` | firmware/application/ui_geomap.cpp:243 | marks the map for redrawing: the `dirty` flag is set |
| `UiGeomap.GeoMap.Move` | firmware/application/ui_geomap.cpp:166-181 | afterwards `x_pos <= map_width - width`; an x beyond that bound is set exactly to it, with no lower cap; y is set to `map_height - height` only when the projected y exceeds `map_height + height`, and is kept as projected otherwise |
| `UiGeomap.GeoMap.Paint` | firmware/application/ui_geomap.cpp:117-133 | rows are read only when `(x_pos, y_pos)` differs from the previous position, exactly the `RowReads` requests; afterwards the previous position equals the current one |
| `UiGeomap.PaintTwice` | firmware/application/ui_geomap.cpp:124-133 | two repaints with no move between them issue the same requests as one |
| `UiGeomap.GeoMap.OnTouch` | firmware/application/ui_geomap.cpp:154-164 | only a Start event highlights the map, and the handler returns true exactly for a Start event while `on_move` is set, in which case `on_move` is invoked (reported, not run) |
| `UiGeomap.GeoPos.constructor` | firmware/application/ui_geomap.cpp:34-67 | fields start at zero, reporting is on, no callback is wired and none has been invoked |
| `UiGeomap.GeoPos.SetReportChange` | firmware/application/ui_geomap.cpp:69-72 | sets the reporting flag |
| `UiGeomap.GeoPos.FieldChanged` | firmware/application/ui_geomap.cpp:55-58 | the change callback receives the current altitude and position exactly when `on_change` is set and `report_change` is true |
| `UiGeomap.GeoPos.SetAltitude` | firmware/application/ui_geomap.cpp:78-80 | sets the altitude field, which reports once through the gate |
| `UiGeomap.GeoPos.SetLat` | firmware/application/ui_geomap.cpp:82-86 | sets degrees, minutes and seconds in that order, each reporting through the gate the position as it stands after that field |
| `UiGeomap.GeoPos.SetLon` | firmware/application/ui_geomap.cpp:88-92 | the same for the longitude fields |
| `UiGeomap.GeoMapView.constructor` | firmware/application/ui_geomap.cpp:261-317 | the file error is the negation of `init`'s result; on error nothing is wired and nothing is read beyond the failed open; otherwise the header is read as by `init` (log, size and centre), the fields hold the given position, both callbacks are wired, the mode is set and the map is moved to the projected pixel, with no change callback emitted |
| `UiGeomap.GeoMapView.Setup` | firmware/application/ui_geomap.cpp:228-259 | the fields are loaded before `on_change` is wired, so loading them emits no callback; afterwards both callbacks are wired |
| `UiGeomap.GeoMapView.OnPositionChanged` | firmware/application/ui_geomap.cpp:238-244 | adopts the reported altitude, moves the map to the projected pixel and marks it dirty |
| `UiGeomap.GeoMapView.OnMapMoved` | firmware/application/ui_geomap.cpp:246-258 | pushes the panned longitude and latitude into the fields without any change callback, leaves `report_change` true, moves the map and marks it dirty |

## Left out

- Drawing is not modelled. This covers `MenuItemView::paint` (colours and text
  layout), the arrow's rectangle, the map's `draw_pixels`, the prompt crosshair,
  `draw_bearing`, `polar_to_point` and every `set_dirty` of the menu. (The map's
  `set_dirty` is kept, as the `dirty` flag `GeoMap.SetDirty` sets.) These are calls
  into the display, with no logic of their own to state.
- Floating point is not modelled:
  - the degree/minute/second split and its recomposition in `GeoPos`
    (`set_lat`, `set_lon`, `lat()`, `lon()`);
  - the lon/lat to pixel projection in `move`;
  - `lon_ratio` and `lat_ratio`;
  - the touch-to-pan scaling in `on_touch`;
  - the `lon_ += move_x` update.

  In their place, the projected pixel position and the split coordinate fields are
  inputs. The floating-point `lat_` and `lon_` copies kept by `GeoMapView` are not
  modelled.
- Real file I/O is not modelled. `open` is an input that either reports an error or
  succeeds. The header field values are inputs. Seeks and reads are recorded only as
  (offset, length) pairs.
- Integer widths: pixel positions, offsets and counts are unbounded integers.
  `int32_t` wrap-around of `x_pos`, `y_pos` and of the seek offset, and the `Coord`
  truncations, are not modelled. A negative seek offset is recorded as a negative
  number. The only cast modelled is the `int32_t` one on menu indices.
- `UiMenu.MenuView.constructor`: requires a non-negative viewport height. For a
  negative height, the source's truncating division and its unsigned
  `displayed_max_` are not modelled.
- Infrastructure is not modelled: the 1 Hz tick subscription and its removal,
  `add_child` and `remove_child`, `new` and `delete` of item views, and the
  destructors.
- Navigation is not modelled: `GeoMapView::focus` (the "No map" modal dialog), the
  OK button, `on_done` and `nav.pop`.
- `GeoPos::set_read_only` and `GeoPos::focus` are not modelled.
  - `set_read_only(v)` calls `set_focusable(~v)` on the `GeoPos` view itself, not on
    its fields. For a `bool` argument, `~v` is -1 or -2, and both convert to `true`,
    so every call makes the view focusable and nothing is made read-only. The
    display-mode constructor's `set_read_only(true)` therefore has no read-only
    effect.
  - `focus` moves input focus to the altitude field.

  Input focus is not part of the model.
- User callbacks are reported, not run: `item.on_select()` (reached from the Select
  and Right keys), `on_left()` and the map's `on_move(...)` appear only as the
  `fired` result of `OnKey` and the `handled` result of `OnTouch`. In the source
  they run synchronously inside the handler, and what they do to the menu or the
  map (on the map screen, `on_move` is the pan handler `OnMapMoved`) is not part of
  those handlers' contracts. So "nothing else changes" in `OnKey` and `OnTouch`
  covers only the widget's own code.
- The commented-out `MenuView::on_touch` is not modelled.
- A menu item keeps only its text and whether it has an `on_select` callback. Its
  bitmap and colour are only used for painting. Of each row's rectangle, only the
  vertical position is kept.
