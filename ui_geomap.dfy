// Model of the integer bookkeeping of the map widget (firmware/application/ui_geomap.cpp):
// the pixel window into the map raster file, the reads a repaint issues, the
// header read at start-up, and the report_change gate of the position fields.

module UiGeomap {

  /** Bytes before the raster: a 2-byte width and a 2-byte height. */
  const HeaderSize: int := 4

  /** One file request: seek to `offset`, then read `length` bytes. */
  datatype Access = Access(offset: int, length: int)

  datatype TouchKind = TouchStart | TouchMove | TouchEnd

  datatype Mode = Display | Prompt

  /** A coordinate as its three entry fields. */
  datatype Dms = Dms(degrees: int, minutes: int, seconds: int)

  /** The arguments of one on_change callback: altitude, latitude, longitude. */
  datatype Report = Report(altitude: int, lat: Dms, lon: Dms)

  /** File offset of pixel (`col`, `row`) of a raster `mapWidth` pixels wide, two bytes a pixel. */
  function PixelOffset(col: int, row: int, mapWidth: int): int
  {
    HeaderSize + 2 * (col + mapWidth * row)
  }

  /**
   * The requests a repaint issues for a view whose top-left pixel is (`x`, `y`):
   * one per view row, top to bottom, each reading `viewWidth` pixels.
   */
  function RowReads(x: int, y: int, mapWidth: int, viewWidth: int, rows: int): (r: seq<Access>)
    ensures |r| == if rows > 0 then rows else 0
    ensures forall k :: 0 <= k < |r| ==> r[k] == Access(PixelOffset(x, y + k, mapWidth), 2 * viewWidth)
    decreases rows
  {
    if rows <= 0 then []
    else RowReads(x, y, mapWidth, viewWidth, rows - 1) + [Access(PixelOffset(x, y + rows - 1, mapWidth), 2 * viewWidth)]
  }

  /** Consecutive row reads do not overlap and go forward through the file. */
  lemma RowReadsAscend(x: int, y: int, mapWidth: int, viewWidth: int, rows: int, k: int)
    requires 0 <= viewWidth <= mapWidth && 0 <= k && k + 1 < rows
    ensures var r := RowReads(x, y, mapWidth, viewWidth, rows);
            r[k].offset + r[k].length <= r[k + 1].offset
  {
    assert mapWidth * (y + k + 1) == mapWidth * (y + k) + mapWidth;
  }

  /** A row segment lying inside the raster is read from raster bytes only. */
  lemma RowInsideRaster(x: int, row: int, mapWidth: int, mapHeight: int, viewWidth: int)
    requires 0 <= viewWidth && 0 <= x && x + viewWidth <= mapWidth && 0 <= row < mapHeight
    ensures HeaderSize <= PixelOffset(x, row, mapWidth)
    ensures PixelOffset(x, row, mapWidth) + 2 * viewWidth <= HeaderSize + 2 * mapWidth * mapHeight
  {
    assert 0 <= mapWidth * row;
    assert mapWidth * row + mapWidth == mapWidth * (row + 1);
    assert mapWidth * (row + 1) <= mapWidth * mapHeight;
  }

  /** A view lying inside the raster reads only raster bytes. */
  lemma RowReadsInsideRaster(x: int, y: int, mapWidth: int, mapHeight: int, viewWidth: int, rows: int)
    requires 0 <= viewWidth && 0 <= x && x + viewWidth <= mapWidth
    requires 0 <= y && y + rows <= mapHeight
    ensures var r := RowReads(x, y, mapWidth, viewWidth, rows);
            forall k :: 0 <= k < |r| ==>
              HeaderSize <= r[k].offset && r[k].offset + r[k].length <= HeaderSize + 2 * mapWidth * mapHeight
  {
    var r := RowReads(x, y, mapWidth, viewWidth, rows);
    forall k | 0 <= k < |r|
      ensures HeaderSize <= r[k].offset && r[k].offset + r[k].length <= HeaderSize + 2 * mapWidth * mapHeight
    {
      RowInsideRaster(x, y + k, mapWidth, mapHeight, viewWidth);
    }
  }

  /** The horizontal cap of move: never past the right edge, no left cap. */
  function CapX(px: int, mapWidth: int, viewWidth: int): int
  {
    if px > mapWidth - viewWidth then mapWidth - viewWidth else px
  }

  /** The vertical cap of move, as written: the test and the assigned value use different bounds. */
  function CapY(py: int, mapHeight: int, viewHeight: int): int
  {
    if py > mapHeight + viewHeight then mapHeight - viewHeight else py
  }

  /** When the vertical cap fires, the view's last row is the raster's last row, so a repaint stays in the file. */
  lemma CappedViewInsideRaster(px: int, py: int, mapWidth: int, mapHeight: int, viewWidth: int, viewHeight: int)
    requires 0 <= viewWidth <= mapWidth && 0 <= viewHeight <= mapHeight
    requires 0 <= px && py > mapHeight + viewHeight
    ensures var r := RowReads(CapX(px, mapWidth, viewWidth), CapY(py, mapHeight, viewHeight), mapWidth, viewWidth, viewHeight);
            forall k :: 0 <= k < |r| ==>
              HeaderSize <= r[k].offset && r[k].offset + r[k].length <= HeaderSize + 2 * mapWidth * mapHeight
  {
    RowReadsInsideRaster(CapX(px, mapWidth, viewWidth), CapY(py, mapHeight, viewHeight), mapWidth, mapHeight, viewWidth, viewHeight);
  }

  /**
   * At the vertical cap's threshold itself the cap does not fire, and the view is
   * left hanging below the raster: the last row a repaint from that position reads
   * starts at or after the end of the file's pixels.
   */
  lemma VerticalCapLetsPaintReadPastRaster(x: int, mapWidth: int, mapHeight: int, viewWidth: int, viewHeight: int)
    requires 0 <= x && 1 <= mapWidth && 1 <= viewHeight
    ensures var y := CapY(mapHeight + viewHeight, mapHeight, viewHeight);
            var r := RowReads(x, y, mapWidth, viewWidth, viewHeight);
            y == mapHeight + viewHeight &&
            r[viewHeight - 1].offset >= HeaderSize + 2 * mapWidth * mapHeight
  {
    var y := mapHeight + viewHeight;
    assert y + viewHeight - 1 >= mapHeight;
    assert mapWidth * (y + viewHeight - 1) >= mapWidth * mapHeight;
  }

  /** The map view (GeoMap). */
  class GeoMap {
    /** Size of the widget's screen rectangle. */
    const viewWidth: int
    const viewHeight: int
    var mapWidth: int
    var mapHeight: int
    var centerX: int
    var centerY: int
    /** Top-left pixel of the view in the raster, now and at the last redraw. */
    var x: int
    var y: int
    var prevX: int
    var prevY: int
    var mode: Mode
    var highlighted: bool
    var dirty: bool
    /** Whether on_move is set. */
    var hasOnMove: bool
    /** The file requests issued so far, in order. */
    var log: seq<Access>

    constructor (viewWidth: int, viewHeight: int)
      ensures this.viewWidth == viewWidth && this.viewHeight == viewHeight
      ensures !highlighted && !hasOnMove && log == []
    {
      this.viewWidth, this.viewHeight := viewWidth, viewHeight;
      // These fields get their first values from member initialisers in the class
      // declaration, which this model does not fix.
      mapWidth, mapHeight, centerX, centerY := *, *, *, *;
      x, y, prevX, prevY := *, *, *, *;
      mode, dirty := *, *;
      highlighted, hasOnMove := false, false;
      log := [];
    }

    /**
     * Opens the map file and reads its header; fails, reading nothing, when the
     * open reports an error. `headerWidth` and `headerHeight` are the two 2-byte
     * header fields.
     */
    method Init(openOk: bool, headerWidth: int, headerHeight: int) returns (ok: bool)
      requires 0 <= headerWidth < 0x1_0000 && 0 <= headerHeight < 0x1_0000
      modifies this`mapWidth, this`mapHeight, this`centerX, this`centerY, this`log
      ensures ok == openOk
      ensures !ok ==> log == old(log) && mapWidth == old(mapWidth) && mapHeight == old(mapHeight) &&
                      centerX == old(centerX) && centerY == old(centerY)
      ensures ok ==> log == old(log) + [Access(0, 2), Access(2, 2)]
      ensures ok ==> mapWidth == headerWidth && mapHeight == headerHeight
      ensures ok ==> 0 <= 2 * centerX <= mapWidth <= 2 * centerX + 1
      ensures ok ==> 0 <= 2 * centerY <= mapHeight <= 2 * centerY + 1
    {
      if !openOk {
        return false;
      }
      log := log + [Access(0, 2)];
      mapWidth := headerWidth;
      log := log + [Access(2, 2)];
      mapHeight := headerHeight;
      centerX := mapWidth / 2;
      centerY := mapHeight / 2;
      ok := true;
    }

    method SetMode(m: Mode)
      modifies this`mode
      ensures mode == m
    {
      mode := m;
    }

    method SetDirty()
      modifies this`dirty
      ensures dirty
    {
      dirty := true;
    }

    /**
     * Moves the view to the projected top-left pixel (`px`, `py`), capped so that
     * the view does not pass the right edge, and, as written, the bottom edge
     * only when `py` lies more than a view height below it.
     */
    method Move(px: int, py: int)
      modifies this`x, this`y
      ensures x == CapX(px, mapWidth, viewWidth) && y == CapY(py, mapHeight, viewHeight)
      ensures x <= mapWidth - viewWidth
      ensures px <= mapWidth - viewWidth ==> x == px
      ensures py > mapHeight + viewHeight ==> y == mapHeight - viewHeight
      ensures py <= mapHeight + viewHeight ==> y == py
    {
      x := px;
      y := py;
      if x > mapWidth - viewWidth {
        x := mapWidth - viewWidth;
      }
      if y > mapHeight + viewHeight {
        y := mapHeight - viewHeight;
      }
    }

    /** Redraws the map rows, but only when the view moved since the last redraw. */
    method Paint()
      modifies this`prevX, this`prevY, this`log
      ensures prevX == x && prevY == y
      ensures log == old(log) + (if old(x != prevX || y != prevY) then RowReads(x, y, mapWidth, viewWidth, viewHeight) else [])
    {
      if x != prevX || y != prevY {
        var line := 0;
        while line < viewHeight
          invariant 0 <= line && (line <= viewHeight || line == 0)
          invariant log == old(log) + RowReads(x, y, mapWidth, viewWidth, line)
        {
          log := log + [Access(HeaderSize + 2 * (x + mapWidth * (y + line)), 2 * viewWidth)];
          line := line + 1;
        }
        prevX := x;
        prevY := y;
      }
    }

    /** A touch press highlights the map and, when on_move is set, is passed on as a pan. */
    method OnTouch(kind: TouchKind) returns (handled: bool)
      modifies this`highlighted
      ensures handled == (kind == TouchStart && hasOnMove)
      ensures highlighted == (old(highlighted) || kind == TouchStart)
    {
      handled := false;
      if kind == TouchStart {
        highlighted := true;
        if hasOnMove {
          handled := true;
        }
      }
    }
  }

  /** A second repaint with no move in between reads nothing more: painting is idempotent. */
  method PaintTwice(m: GeoMap)
    modifies m
    ensures m.log == old(m.log) + (if old(m.x != m.prevX || m.y != m.prevY)
                                   then RowReads(m.x, m.y, m.mapWidth, m.viewWidth, m.viewHeight) else [])
    ensures m.prevX == m.x && m.prevY == m.y
  {
    m.Paint();
    m.Paint();
  }

  /** The position entry fields (GeoPos). */
  class GeoPos {
    var altitude: int
    var lat: Dms
    var lon: Dms
    var reportChange: bool
    /** Whether on_change is set. */
    var hasOnChange: bool
    /** The on_change callbacks invoked so far, in order. */
    var reports: seq<Report>

    constructor ()
      ensures altitude == 0 && lat == Dms(0, 0, 0) && lon == Dms(0, 0, 0)
      ensures reportChange && !hasOnChange && reports == []
    {
      altitude, lat, lon := 0, Dms(0, 0, 0), Dms(0, 0, 0);
      reportChange, hasOnChange := true, false;
      reports := [];
    }

    /** Callbacks are delivered only while on_change is set and reporting is on. */
    predicate Reporting()
      reads this
    {
      hasOnChange && reportChange
    }

    method SetReportChange(v: bool)
      modifies this`reportChange
      ensures reportChange == v
    {
      reportChange := v;
    }

    /** What every field does after it changed: report the whole position, if reporting. */
    method FieldChanged()
      modifies this`reports
      ensures reports == old(reports) + (if Reporting() then [Report(altitude, lat, lon)] else [])
    {
      if hasOnChange && reportChange {
        reports := reports + [Report(altitude, lat, lon)];
      }
    }

    method SetAltitude(a: int)
      modifies this`altitude, this`reports
      ensures altitude == a
      ensures reports == old(reports) + (if Reporting() then [Report(a, lat, lon)] else [])
    {
      altitude := a;
      FieldChanged();
    }

    /** Sets the three latitude fields in turn; each one reports what it changed. */
    method SetLat(d: Dms)
      modifies this`lat, this`reports
      ensures lat == d
      ensures reports == old(reports) +
        (if Reporting() then
           [Report(altitude, Dms(d.degrees, old(lat).minutes, old(lat).seconds), lon),
            Report(altitude, Dms(d.degrees, d.minutes, old(lat).seconds), lon),
            Report(altitude, d, lon)]
         else [])
    {
      lat := lat.(degrees := d.degrees);
      FieldChanged();
      lat := lat.(minutes := d.minutes);
      FieldChanged();
      lat := lat.(seconds := d.seconds);
      FieldChanged();
    }

    /** Sets the three longitude fields in turn; each one reports what it changed. */
    method SetLon(d: Dms)
      modifies this`lon, this`reports
      ensures lon == d
      ensures reports == old(reports) +
        (if Reporting() then
           [Report(altitude, lat, Dms(d.degrees, old(lon).minutes, old(lon).seconds)),
            Report(altitude, lat, Dms(d.degrees, d.minutes, old(lon).seconds)),
            Report(altitude, lat, d)]
         else [])
    {
      lon := lon.(degrees := d.degrees);
      FieldChanged();
      lon := lon.(minutes := d.minutes);
      FieldChanged();
      lon := lon.(seconds := d.seconds);
      FieldChanged();
    }
  }

  /**
   * The map screen (GeoMapView): position fields and map kept in step. `px` and
   * `py` stand for the projected top-left pixel of the current coordinate.
   */
  class GeoMapView {
    const geopos: GeoPos
    const geomap: GeoMap
    const mode: Mode
    var fileError: bool
    var altitude: int

    /**
     * Both constructors: open the map, and only when that worked wire the
     * position fields and the map together and move the map to the coordinate.
     */
    constructor (mode: Mode, openOk: bool, headerWidth: int, headerHeight: int,
                 viewWidth: int, viewHeight: int, altitude: int, lat: Dms, lon: Dms, px: int, py: int)
      requires 0 <= headerWidth < 0x1_0000 && 0 <= headerHeight < 0x1_0000
      ensures fresh(geopos) && fresh(geomap) && this.mode == mode && this.altitude == altitude
      ensures fileError == !openOk
      ensures geopos.reports == [] && geopos.reportChange
      ensures geomap.viewWidth == viewWidth && geomap.viewHeight == viewHeight
      ensures fileError ==> !geopos.hasOnChange && !geomap.hasOnMove && geomap.log == []
      ensures !fileError ==>
        geopos.hasOnChange && geomap.hasOnMove && geomap.mode == mode &&
        geopos.altitude == altitude && geopos.lat == lat && geopos.lon == lon &&
        geomap.mapWidth == headerWidth && geomap.mapHeight == headerHeight &&
        geomap.log == [Access(0, 2), Access(2, 2)] &&
        0 <= 2 * geomap.centerX <= headerWidth <= 2 * geomap.centerX + 1 &&
        0 <= 2 * geomap.centerY <= headerHeight <= 2 * geomap.centerY + 1 &&
        geomap.x == CapX(px, headerWidth, viewWidth) && geomap.y == CapY(py, headerHeight, viewHeight)
    {
      geopos := new GeoPos();
      geomap := new GeoMap(viewWidth, viewHeight);
      this.mode := mode;
      this.altitude := altitude;
      fileError := false;
      new;
      var ok := geomap.Init(openOk, headerWidth, headerHeight);
      fileError := !ok;
      if fileError {
        return;
      }
      Setup(lat, lon);
      geomap.SetMode(mode);
      geomap.Move(px, py);
    }

    /** Loads the fields with no callback wired yet, then wires both callbacks. */
    method Setup(lat: Dms, lon: Dms)
      requires !geopos.hasOnChange
      modifies geopos, geomap`hasOnMove
      ensures geopos.altitude == altitude && geopos.lat == lat && geopos.lon == lon
      ensures geopos.reports == old(geopos.reports) && geopos.reportChange == old(geopos.reportChange)
      ensures geopos.hasOnChange && geomap.hasOnMove
    {
      geopos.SetAltitude(altitude);
      geopos.SetLat(lat);
      geopos.SetLon(lon);
      geopos.hasOnChange := true;
      geomap.hasOnMove := true;
    }

    /** The on_change callback: adopt the edited position and move the map to it. */
    method OnPositionChanged(r: Report, px: int, py: int)
      modifies this`altitude, geomap`x, geomap`y, geomap`dirty
      ensures altitude == r.altitude
      ensures geomap.x == CapX(px, geomap.mapWidth, geomap.viewWidth)
      ensures geomap.y == CapY(py, geomap.mapHeight, geomap.viewHeight)
      ensures geomap.dirty
    {
      altitude := r.altitude;
      geomap.Move(px, py);
      geomap.SetDirty();
    }

    /**
     * The on_move callback: push the panned coordinate (`lon`, `lat` as fields)
     * into the position fields with reporting switched off, then move the map.
     */
    method OnMapMoved(lon: Dms, lat: Dms, px: int, py: int)
      modifies geopos, geomap`x, geomap`y, geomap`dirty
      ensures geopos.reports == old(geopos.reports)
      ensures geopos.reportChange
      ensures geopos.lon == lon && geopos.lat == lat && geopos.altitude == old(geopos.altitude)
      ensures geopos.hasOnChange == old(geopos.hasOnChange)
      ensures geomap.x == CapX(px, geomap.mapWidth, geomap.viewWidth)
      ensures geomap.y == CapY(py, geomap.mapHeight, geomap.viewHeight)
      ensures geomap.dirty
    {
      geopos.SetReportChange(false);
      geopos.SetLon(lon);
      geopos.SetLat(lat);
      geopos.SetReportChange(true);
      geomap.Move(px, py);
      geomap.SetDirty();
    }
  }
}
