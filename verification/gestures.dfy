/** Moving and resizing events with the mouse (planner.js:415-435, 614-784).
    Pixel values are whole pixels; `slotH` is the height of one slot and
    `colWidth` the width of one patient column, both positive. While a
    gesture runs, the element's position lives in the page; the model keeps
    it in the gesture record. */
module Gestures {
  import opened Optional
  import opened Seqs
  import opened Js
  import opened Time
  import opened Grid
  import opened Entities

  /** The minimum drawn height of an event element, in pixels. */
  const MinElementHeight: int := 24

  // ---------- rendering ----------

  /** The pixel top event `e` is drawn at (planner.js:420-425, 432). A
      start that does not parse gives no usable top, which reads back as 0
      (`parseFloat(el.style.top) || 0`). */
  function RenderTop(cfg: Config, slotH: int, e: Scheduled): (top: int)
    requires cfg.slotMinutes > 0
    ensures TimeToMinutes(e.start).NaN? ==> top == 0
    ensures TimeToMinutes(e.start).Fin? ==>
              var m := TimeToMinutes(e.start).v - cfg.DayStart();
              top * cfg.slotMinutes <= m * slotH < top * cfg.slotMinutes + cfg.slotMinutes
  {
    match TimeToMinutes(e.start)
    case NaN => 0
    case Fin(m) => TopOf(cfg, slotH, m)
  }

  /** The pixel height event `e` is drawn with (planner.js:426, 433): four
      pixels short of its length, never below 24; unparsable times give no
      usable height, which reads back as 0. */
  function RenderHeight(cfg: Config, slotH: int, e: Scheduled): (h: int)
    requires cfg.slotMinutes > 0
    ensures h == 0 || h >= MinElementHeight
    ensures TimeToMinutes(e.start).NaN? || TimeToMinutes(e.end).NaN? <==> h == 0
  {
    var a := TimeToMinutes(e.start);
    var b := TimeToMinutes(e.end);
    if a.NaN? || b.NaN? then 0
    else Max(MinElementHeight, ((b.v - a.v) * slotH) / cfg.slotMinutes - 4)
  }

  /** An event that starts on slot `i` is drawn at the top of that slot. */
  lemma RenderTopOfSlot(cfg: Config, slotH: int, e: Scheduled, i: nat)
    requires cfg.Valid() && slotH > 0 && i < cfg.TotalSlots()
    requires TimeToMinutes(e.start) == Fin(SlotStart(cfg, i))
    ensures RenderTop(cfg, slotH, e) == i * slotH
  {
    PixelRoundTrip(cfg, slotH, i);
  }

  /** An event element exists for `id` only when some patient column holds
      it, so the grid has at least one column and the event is in the list. */
  lemma RenderedHasColumn(s: Planner, id: string)
    requires Rendered(s, id)
    ensures |s.patients| >= 1 && id in EventIds(s.scheduled)
  {
    var k :| 0 <= k < |s.scheduled| && s.scheduled[k].id == id && s.scheduled[k].patientId in PatientIds(s.patients);
    assert EventIds(s.scheduled)[k] == id;
  }

  // ---------- drag ----------

  /** Pressing the mouse on event `k`'s element (planner.js:631-651): the
      drag starts from the element's drawn top, in the column of the event's
      patient. An event without a column has no element to press. */
  function StartDrag(s: Planner, cfg: Config, slotH: int, k: nat): (r: Planner)
    requires cfg.slotMinutes > 0 && k < |s.scheduled|
    ensures r == s.(gesture := r.gesture)
    ensures s.scheduled[k].patientId !in PatientIds(s.patients) ==> r == s
    ensures s.scheduled[k].patientId in PatientIds(s.patients) ==>
      && r.gesture.Dragging?
      && r.gesture.id == s.scheduled[k].id
      && r.gesture.current == r.gesture.origin
      && r.gesture.origin.top == RenderTop(cfg, slotH, s.scheduled[k])
      && 0 <= r.gesture.origin.col < |s.patients|
      && s.patients[r.gesture.origin.col].id == s.scheduled[k].patientId
  {
    var e := s.scheduled[k];
    match IndexOf(PatientIds(s.patients), e.patientId)
    case None => s
    case Some(c) =>
      var v := DragView(RenderTop(cfg, slotH, e), c);
      s.(gesture := Dragging(e.id, v, v))
  }

  /** Where the dragged element goes for a mouse offset (`dx`, `dy`) from
      the press (planner.js:659-668): the top snapped to the nearest slot
      boundary and kept off the negative, and the column shifted by whole
      column widths and kept on the grid. */
  function DragTo(origin: DragView, dx: int, dy: int, slotH: int, colWidth: int, cols: int): (v: DragView)
    requires slotH > 0 && colWidth > 0 && cols >= 1
    ensures v.top >= 0 && v.top % slotH == 0
    ensures origin.top + dy >= 0 ==> -slotH < 2 * (v.top - (origin.top + dy)) <= slotH
    ensures 0 <= v.col < cols
    ensures var c := origin.col + RoundDiv(dx, colWidth);
            (0 <= c < cols ==> v.col == c) && (c < 0 ==> v.col == 0) && (c >= cols ==> v.col == cols - 1)
  {
    var top := SnapTop(origin.top + dy, slotH);
    var col := Max(0, Min(cols - 1, origin.col + RoundDiv(dx, colWidth)));
    DragView(top, col)
  }

  /** A mouse move during a drag (planner.js:653-671). Nothing happens
      without a drag or without the dragged element. */
  function OnDrag(s: Planner, slotH: int, colWidth: int, dx: int, dy: int): (r: Planner)
    requires slotH > 0 && colWidth > 0
    ensures r == s.(gesture := r.gesture)
    ensures !s.gesture.Dragging? || !Rendered(s, s.gesture.id) ==> r == s
    ensures s.gesture.Dragging? && Rendered(s, s.gesture.id) ==>
      && r.gesture.Dragging? && r.gesture.id == s.gesture.id && r.gesture.origin == s.gesture.origin
      && r.gesture.current.top >= 0 && r.gesture.current.top % slotH == 0
      && 0 <= r.gesture.current.col < |s.patients|
  {
    match s.gesture
    case Dragging(id, origin, _) =>
      if !Rendered(s, id) then s
      else
        RenderedHasColumn(s, id);
        s.(gesture := s.gesture.(current := DragTo(origin, dx, dy, slotH, colWidth, |s.patients|)))
    case _ => s
  }

  /** Every offset is measured from the press, so only the last mouse move
      of a drag counts. */
  lemma OnDragLastWins(s: Planner, slotH: int, colWidth: int, dx1: int, dy1: int, dx2: int, dy2: int)
    requires slotH > 0 && colWidth > 0
    ensures OnDrag(OnDrag(s, slotH, colWidth, dx1, dy1), slotH, colWidth, dx2, dy2)
            == OnDrag(s, slotH, colWidth, dx2, dy2)
  {
  }

  /** The release's clamp of the element's top as written (planner.js:689-691):
      a negative top becomes 0, and a top past the column's height is
      pulled back to the start of the last slot. */
  function ClampTopAsWritten(top: int, totalSlots: int, slotH: int): (t: int)
    requires totalSlots >= 1 && slotH > 0
    ensures 0 <= t <= totalSlots * slotH
    ensures 0 <= top <= totalSlots * slotH ==> t == top
    ensures top < 0 ==> t == 0
    ensures top > totalSlots * slotH ==> t == totalSlots * slotH - slotH
  {
    var t := if top < 0 then 0 else top;
    if t > totalSlots * slotH then totalSlots * slotH - slotH else t
  }

  /** The clamp as evidently intended ("keep on same day"): the top stays
      within the last slot's top. */
  function ClampTop(top: int, totalSlots: int, slotH: int): (t: int)
    requires totalSlots >= 1 && slotH > 0
    ensures 0 <= t <= (totalSlots - 1) * slotH
    ensures 0 <= top <= (totalSlots - 1) * slotH ==> t == top
    ensures top < 0 ==> t == 0
    ensures top > (totalSlots - 1) * slotH ==> t == (totalSlots - 1) * slotH
  {
    assert 0 <= (totalSlots - 1) * slotH;
    if top < 0 then 0
    else if top > (totalSlots - 1) * slotH then (totalSlots - 1) * slotH
    else top
  }

  /** Event `e` dropped so that it starts at `startMins` in `patientId`'s
      column (planner.js:696-702): its stored duration is kept when non-zero,
      otherwise its old length `end - start` is, and the end follows. */
  function Moved(e: Scheduled, startMins: int, patientId: string): (e': Scheduled)
    ensures e' == e.(patientId := patientId, start := e'.start, end := e'.end)
    ensures startMins >= 0 ==> TimeToMinutes(e'.start) == Fin(startMins)
    ensures e.duration != 0 && startMins + e.duration >= 0 ==>
              TimeToMinutes(e'.end) == Fin(startMins + e.duration)
    ensures var len := Sub(TimeToMinutes(e.end), TimeToMinutes(e.start));
            && (e.duration == 0 && len.Fin? && startMins + len.v >= 0 ==>
                  TimeToMinutes(e'.end) == Fin(startMins + len.v))
            && (e.duration == 0 && len.NaN? ==> TimeToMinutes(e'.end).NaN?)
  {
    var duration := if e.duration != 0 then Fin(e.duration) else Sub(TimeToMinutes(e.end), TimeToMinutes(e.start));
    var start := MinutesToTime(Fin(startMins));
    var end := MinutesToTime(Add(Fin(startMins), duration));
    TimeRoundTripIf(Fin(startMins));
    TimeRoundTripIf(Add(Fin(startMins), duration));
    e.(patientId := patientId, start := start, end := end)
  }

  /** The commit of a drag whose element ended up on slot `slot` of column
      `col` (planner.js:693-702): event `k`, the first with the dragged id,
      moves to the slot's start and to the column's patient. */
  function CommitDrag(s: Planner, cfg: Config, k: nat, slot: int, col: int): (r: Planner)
    requires k < |s.scheduled|
    ensures OnlyEventsChanged(s, r)
    ensures OthersUnchanged(s.scheduled, r.scheduled, k)
    ensures 0 <= col < |s.patients| ==> r.scheduled[k] == Moved(s.scheduled[k], SlotStart(cfg, slot), s.patients[col].id)
    ensures !(0 <= col < |s.patients|) ==> r.scheduled[k] == Moved(s.scheduled[k], SlotStart(cfg, slot), s.scheduled[k].patientId)
  {
    var pid := if 0 <= col < |s.patients| then s.patients[col].id else s.scheduled[k].patientId;
    s.(scheduled := s.scheduled[k := Moved(s.scheduled[k], SlotStart(cfg, slot), pid)])
  }

  /** Releasing the mouse after a drag, exactly as planner.js:673-710 does
      it. Without a drag nothing happens; without the element or the event
      the drag is dropped unsaved; otherwise the event moves to the slot
      nearest the clamped top, which may be one past the last slot, and the
      working set is saved. */
  function EndDragAsWritten(s: Planner, cfg: Config, slotH: int): (o: Outcome)
    requires cfg.Valid() && slotH > 0
    ensures !s.gesture.Dragging? ==> o == Outcome(s, false)
    ensures s.gesture.Dragging? && !Rendered(s, s.gesture.id) ==> o == Outcome(s.(gesture := Idle), false)
    ensures s.gesture.Dragging? && Rendered(s, s.gesture.id) ==>
      && o.save
      && s.gesture.id in EventIds(s.scheduled)
      && var k := IndexOf(EventIds(s.scheduled), s.gesture.id).value;
         var slot := PixelToSlot(ClampTopAsWritten(s.gesture.current.top, cfg.TotalSlots(), slotH), slotH);
         && 0 <= slot <= cfg.TotalSlots()
         && o.next == CommitDrag(s, cfg, k, slot, s.gesture.current.col).(gesture := Idle)
  {
    match s.gesture
    case Dragging(id, _, current) =>
      if !Rendered(s, id) then Outcome(s.(gesture := Idle), false)
      else
        RenderedHasColumn(s, id);
        var k := IndexOf(EventIds(s.scheduled), id).value;
        var top := ClampTopAsWritten(current.top, cfg.TotalSlots(), slotH);
        RoundDivRange(top, slotH, 0, cfg.TotalSlots());
        Outcome(CommitDrag(s, cfg, k, PixelToSlot(top, slotH), current.col).(gesture := Idle), true)
    case _ => Outcome(s, false)
  }

  /** The discrepancy of the drag as written: an element dropped with its
      top exactly one column height down passes the `>` test, so the event
      starts at the end of the visible day, below the last slot. */
  lemma EndDragAsWrittenLeavesDay(s: Planner, cfg: Config, slotH: int)
    requires cfg.Valid() && slotH > 0
    requires s.gesture.Dragging? && Rendered(s, s.gesture.id)
    requires s.gesture.current.top == cfg.TotalSlots() * slotH
    ensures var k := IndexOf(EventIds(s.scheduled), s.gesture.id).value;
            var o := EndDragAsWritten(s, cfg, slotH);
            TimeToMinutes(o.next.scheduled[k].start) == Fin(cfg.DayEnd())
  {
    RenderedHasColumn(s, s.gesture.id);
    var n := cfg.TotalSlots();
    var k := IndexOf(EventIds(s.scheduled), s.gesture.id).value;
    assert ClampTopAsWritten(s.gesture.current.top, n, slotH) == n * slotH;
    RoundDivExact(n, slotH);
    assert PixelToSlot(n * slotH, slotH) == n;
    assert SlotStart(cfg, n) == cfg.DayEnd();
    var o := EndDragAsWritten(s, cfg, slotH);
    assert o.next == CommitDrag(s, cfg, k, n, s.gesture.current.col).(gesture := Idle);
  }

  /** Releasing the mouse after a drag with the clamp as evidently intended:
      the event always lands on a slot of the visible day. */
  function EndDrag(s: Planner, cfg: Config, slotH: int): (o: Outcome)
    requires cfg.Valid() && slotH > 0
    ensures !s.gesture.Dragging? ==> o == Outcome(s, false)
    ensures s.gesture.Dragging? && !Rendered(s, s.gesture.id) ==> o == Outcome(s.(gesture := Idle), false)
    ensures s.gesture.Dragging? && Rendered(s, s.gesture.id) ==>
      && o.save
      && s.gesture.id in EventIds(s.scheduled)
      && var k := IndexOf(EventIds(s.scheduled), s.gesture.id).value;
         var slot := PixelToSlot(ClampTop(s.gesture.current.top, cfg.TotalSlots(), slotH), slotH);
         && 0 <= slot < cfg.TotalSlots()
         && o.next == CommitDrag(s, cfg, k, slot, s.gesture.current.col).(gesture := Idle)
         && TimeToMinutes(o.next.scheduled[k].start) == Fin(SlotStart(cfg, slot))
         && cfg.DayStart() <= SlotStart(cfg, slot) && SlotStart(cfg, slot) + cfg.slotMinutes <= cfg.DayEnd()
  {
    match s.gesture
    case Dragging(id, _, current) =>
      if !Rendered(s, id) then Outcome(s.(gesture := Idle), false)
      else
        RenderedHasColumn(s, id);
        var k := IndexOf(EventIds(s.scheduled), id).value;
        var top := ClampTop(current.top, cfg.TotalSlots(), slotH);
        RoundDivRange(top, slotH, 0, cfg.TotalSlots() - 1);
        var slot := PixelToSlot(top, slotH);
        SlotStartInDay(cfg, slot);
        Outcome(CommitDrag(s, cfg, k, slot, current.col).(gesture := Idle), true)
    case _ => Outcome(s, false)
  }

  /** A drag keeps the event's length: with a stored duration the new end is
      that far after the new start; the columns and dates of other events
      do not change. */
  lemma EndDragKeepsDuration(s: Planner, cfg: Config, slotH: int)
    requires cfg.Valid() && slotH > 0
    requires s.gesture.Dragging? && Rendered(s, s.gesture.id)
    ensures s.gesture.id in EventIds(s.scheduled)
    ensures var k := IndexOf(EventIds(s.scheduled), s.gesture.id).value;
            var e := s.scheduled[k];
            var e' := EndDrag(s, cfg, slotH).next.scheduled[k];
            && e'.id == e.id && e'.duration == e.duration && e'.date == e.date && e'.staff == e.staff
            && TimeToMinutes(e'.start).Fin? && TimeToMinutes(e'.start).v >= cfg.DayStart()
            && (e.duration > 0 ==> TimeToMinutes(e'.end) == Add(TimeToMinutes(e'.start), Fin(e.duration)))
  {
    RenderedHasColumn(s, s.gesture.id);
    var top := ClampTop(s.gesture.current.top, cfg.TotalSlots(), slotH);
    RoundDivRange(top, slotH, 0, cfg.TotalSlots() - 1);
    SlotStartInDay(cfg, PixelToSlot(top, slotH));
  }

  // ---------- resize ----------

  /** The resize works on the element's exact top and height, which are
      whole numbers of sub-pixels: a sub-pixel is 1/slotMinutes of a pixel,
      so a slot is `slotH * slotMinutes` of them. */
  function SlotUnits(cfg: Config, slotH: int): (u: int)
    requires cfg.slotMinutes > 0 && slotH > 0
    ensures u > 0
  {
    MulMono(slotH, 1, cfg.slotMinutes);
    slotH * cfg.slotMinutes
  }

  /** The top a press on a handle reads back from the element, 0 when the
      start is unreadable (planner.js:425, 432, 730), in sub-pixels: exact,
      where the drawn top is its floor. */
  function ExactTop(cfg: Config, slotH: int, e: Scheduled): (top: int)
    requires cfg.slotMinutes > 0
    ensures top / cfg.slotMinutes == RenderTop(cfg, slotH, e)
    ensures TimeToMinutes(e.start).Fin? ==> top == (TimeToMinutes(e.start).v - cfg.DayStart()) * slotH
    ensures TimeToMinutes(e.start).NaN? ==> top == 0
  {
    match TimeToMinutes(e.start)
    case NaN => 0
    case Fin(m) => (m - cfg.DayStart()) * slotH
  }

  /** The height read back at a press on a handle (planner.js:426, 433,
      731), in sub-pixels: exact, where the drawn height is its floor. */
  function ExactHeight(cfg: Config, slotH: int, e: Scheduled): (h: int)
    requires cfg.slotMinutes > 0
    ensures h / cfg.slotMinutes == RenderHeight(cfg, slotH, e)
    ensures h == 0 || h >= MinElementHeight * cfg.slotMinutes
    ensures TimeToMinutes(e.start).NaN? || TimeToMinutes(e.end).NaN? <==> h == 0
  {
    var a := TimeToMinutes(e.start);
    var b := TimeToMinutes(e.end);
    var sm := cfg.slotMinutes;
    if a.NaN? || b.NaN? then 0
    else
      var x := (b.v - a.v) * slotH;
      DrawnFloor(x, sm);
      Max(MinElementHeight * sm, x - 4 * sm)
  }

  /** Flooring commutes with the 4-pixel gap and the 24-pixel minimum. */
  lemma DrawnFloor(x: int, sm: int)
    requires sm > 0
    ensures Max(MinElementHeight * sm, x - 4 * sm) / sm == Max(MinElementHeight, x / sm - 4)
    ensures MinElementHeight * sm > 0
  {
    var q := x / sm;
    DivUnique(x - 4 * sm, sm, q - 4);
    MultipleOf(MinElementHeight, sm);
    if x - 4 * sm < MinElementHeight * sm {
      if q - 4 >= MinElementHeight {
        MulMono(sm, MinElementHeight, q - 4);
      }
    } else {
      if q - 4 < MinElementHeight {
        MulMono(sm, q - 3, MinElementHeight);
      }
    }
  }

  /** Pressing the mouse on a resize handle of event `k` (planner.js:713-737):
      the resize starts from the element's exact top and height. An event
      without a column has no handle to press. */
  function StartResize(s: Planner, cfg: Config, slotH: int, k: nat, edge: Edge): (r: Planner)
    requires cfg.slotMinutes > 0 && k < |s.scheduled|
    ensures r == s.(gesture := r.gesture)
    ensures s.scheduled[k].patientId !in PatientIds(s.patients) ==> r == s
    ensures s.scheduled[k].patientId in PatientIds(s.patients) ==>
      r.gesture == Resizing(s.scheduled[k].id, edge, ExactTop(cfg, slotH, s.scheduled[k]), ExactHeight(cfg, slotH, s.scheduled[k]))
  {
    var e := s.scheduled[k];
    if e.patientId !in PatientIds(s.patients) then s
    else s.(gesture := Resizing(e.id, edge, ExactTop(cfg, slotH, e), ExactHeight(cfg, slotH, e)))
  }

  /** The element's box while resizing. */
  datatype Box = Box(top: int, height: int)

  /** The box for a mouse offset `dy` from the press (planner.js:745-759),
      for slots `slotH` units tall. Dragging the top edge snaps the top to a
      slot boundary, keeps it off the negative and gives the difference to
      the height; dragging the bottom edge changes the height only. The
      height is then snapped and never less than one slot. */
  function ResizeBox(edge: Edge, originTop: int, originHeight: int, dy: int, slotH: int): (b: Box)
    requires slotH > 0
    ensures b.height >= slotH && b.height % slotH == 0
    ensures edge == BottomEdge ==> b.top == originTop
    ensures edge == TopEdge ==> b.top >= 0 && b.top % slotH == 0
    ensures edge == TopEdge && originTop + dy >= 0 ==> -slotH < 2 * (b.top - (originTop + dy)) <= slotH
    ensures var raw := if edge == TopEdge then originHeight - (b.top - originTop) else originHeight + dy;
            b.height == slotH || -slotH < 2 * (b.height - raw) <= slotH
  {
    var top := if edge == TopEdge then SnapTop(originTop + dy, slotH) else originTop;
    var raw := if edge == TopEdge then originHeight - (top - originTop) else originHeight + dy;
    Box(top, SnapHeight(raw, slotH))
  }

  /** `Math.max(0, Math.round(top / slotH) * slotH)`: the nearest slot
      boundary, kept off the negative. */
  function SnapTop(top: int, slotH: int): (t: int)
    requires slotH > 0
    ensures t >= 0 && t % slotH == 0
    ensures top >= 0 ==> -slotH < 2 * (t - top) <= slotH
  {
    var r := Snap(top, slotH);
    MultipleOf(0, slotH);
    if r < 0 then 0 else r
  }

  /** `Math.max(slotH, Math.round(h / slotH) * slotH)`: the nearest whole
      number of slots, at least one. */
  function SnapHeight(h: int, slotH: int): (r: int)
    requires slotH > 0
    ensures r >= slotH && r % slotH == 0
    ensures r == slotH || -slotH < 2 * (r - h) <= slotH
  {
    MultipleOf(1, slotH);
    Max(slotH, Snap(h, slotH))
  }

  /** The times of a resized box (planner.js:765-773): the box's top and
      bottom converted to minutes and rounded, the duration rounded from the
      height. */
  datatype Span = Span(start: int, end: int, duration: int)

  /** The box of sub-pixels converted to minutes: a sub-pixel is
      `1 / slotH` of a minute. A box of whole slots lasts whole slots of
      minutes, and a top on a whole minute gives exactly that minute. */
  function ResizeSpan(cfg: Config, slotH: int, b: Box): (t: Span)
    requires cfg.Valid() && slotH > 0
    requires b.height >= SlotUnits(cfg, slotH) && b.height % SlotUnits(cfg, slotH) == 0
    ensures t.duration == (b.height / SlotUnits(cfg, slotH)) * cfg.slotMinutes
    ensures t.duration >= cfg.slotMinutes && t.duration % cfg.slotMinutes == 0
    ensures t.end - t.start == t.duration
    ensures b.top >= 0 ==> t.start >= cfg.DayStart()
    ensures b.top % slotH == 0 ==> t.start == cfg.DayStart() + b.top / slotH
    ensures b.top % SlotUnits(cfg, slotH) == 0 ==> t.start == SlotStart(cfg, b.top / SlotUnits(cfg, slotH))
  {
    SpanArithmetic(cfg.slotMinutes, slotH, b.top, b.height);
    Span(cfg.DayStart() + RoundDiv(b.top, slotH),
         cfg.DayStart() + RoundDiv(b.top + b.height, slotH),
         RoundDiv(b.height, slotH))
  }

  /** The times a mouse offset of `dy` pixels gives a resize that started
      from `originTop` and `originHeight` sub-pixels. */
  function ResizeTimes(cfg: Config, slotH: int, edge: Edge, originTop: int, originHeight: int, dy: int): Span
    requires cfg.Valid() && slotH > 0
  {
    ResizeSpan(cfg, slotH, ResizeBox(edge, originTop, originHeight, dy * cfg.slotMinutes, SlotUnits(cfg, slotH)))
  }

  /** The rounding facts behind ResizeSpan: a height of `n` slots is `n`
      slots of minutes exactly, so the rounded bottom is the rounded top
      plus the duration. */
  lemma SpanArithmetic(sm: int, slotH: int, top: int, height: int)
    requires sm > 0 && slotH > 0 && height >= slotH * sm && height % (slotH * sm) == 0
    ensures RoundDiv(height, slotH) == (height / (slotH * sm)) * sm
    ensures (height / (slotH * sm)) * sm >= sm && ((height / (slotH * sm)) * sm) % sm == 0
    ensures RoundDiv(top + height, slotH) == RoundDiv(top, slotH) + (height / (slotH * sm)) * sm
    ensures top >= 0 ==> RoundDiv(top, slotH) >= 0
    ensures top % slotH == 0 ==> RoundDiv(top, slotH) == top / slotH
    ensures top % (slotH * sm) == 0 ==> RoundDiv(top, slotH) == (top / (slotH * sm)) * sm
  {
    var n := height / (slotH * sm);
    SlotsOfMinutes(sm, slotH, height);
    RoundDivExact(n * sm, slotH);
    RoundDivShift(top, n * sm, slotH);
    WholeMinutes(n, sm);
    RoundNonneg(top, slotH);
    RoundTop(sm, slotH, top);
  }

  /** A whole number `n` of slots of sub-pixels is `n` slots of minutes
      times `slotH`. */
  lemma SlotsOfMinutes(sm: int, slotH: int, height: int)
    requires sm > 0 && slotH > 0 && height >= slotH * sm && height % (slotH * sm) == 0
    ensures height / (slotH * sm) >= 1
    ensures height == ((height / (slotH * sm)) * sm) * slotH
  {
    var u := slotH * sm;
    var n := height / u;
    assert height == u * n;
    SlotCount(height, u);
    assert u * n == (n * sm) * slotH;
  }

  /** A top on a whole minute, or on a slot boundary, rounds to itself. */
  lemma RoundTop(sm: int, slotH: int, top: int)
    requires sm > 0 && slotH > 0
    ensures top % slotH == 0 ==> RoundDiv(top, slotH) == top / slotH
    ensures top % (slotH * sm) == 0 ==> RoundDiv(top, slotH) == (top / (slotH * sm)) * sm
  {
    if top % slotH == 0 {
      assert top == (top / slotH) * slotH;
      RoundDivExact(top / slotH, slotH);
    }
    var u := slotH * sm;
    if top % u == 0 {
      var j := top / u;
      assert top == u * j;
      assert u * j == (j * sm) * slotH;
      RoundDivExact(j * sm, slotH);
    }
  }

  lemma SlotCount(height: int, slotH: int)
    requires slotH > 0 && height >= slotH && height == slotH * (height / slotH)
    ensures height / slotH >= 1
  {
    if height / slotH < 1 {
      MulMono(slotH, height / slotH, 0);
    }
  }

  lemma WholeMinutes(n: int, sm: int)
    requires sm > 0 && n >= 1
    ensures n * sm >= sm && (n * sm) % sm == 0
  {
    DivUnique(n * sm, sm, n);
    MulMono(sm, 1, n);
  }

  lemma RoundNonneg(top: int, slotH: int)
    requires slotH > 0
    ensures top >= 0 ==> RoundDiv(top, slotH) >= 0
  {
    if top > 0 {
      MulMono(top, 1, slotH);
      RoundDivRange(top, slotH, 0, top);
    } else if top == 0 {
      RoundDivExact(0, slotH);
    }
  }

  // ---------- resize properties ----------

  /** Dragging the top edge of a box on whole slots of `u` units (its top
      on slot `i`, its height `n` slots less a gap `g`) moves only the top:
      the bottom lands back on the slot boundary it had, unless the one-slot
      minimum takes over. This needs the gap to be at most half a slot; the
      drawn 4-pixel gap is, once slots are at least 8 pixels tall. */
  lemma TopEdgeKeepsBottom(i: int, n: int, dy: int, u: int, g: int)
    requires u > 0 && 0 <= 2 * g <= u
    ensures var b := ResizeBox(TopEdge, i * u, n * u - g, dy, u);
            b.top + b.height == (i + n) * u || b.height == u
  {
    var top := SnapTop(i * u + dy, u);
    var j := top / u;
    assert top == j * u;
    var k := n + i - j;
    assert n * u - g - (top - i * u) == k * u - g by {
      assert k * u == n * u + i * u - j * u;
    }
    GapSnaps(k, u, g);
    MaxSlots(k, u);
    if k >= 1 {
      assert j * u + k * u == (i + n) * u;
    }
  }

  /** A height a gap short of `k` slots snaps back to `k` slots (or the
      one-slot minimum) when the gap is at most half a slot. */
  lemma GapSnaps(k: int, u: int, g: int)
    requires u > 0 && 0 <= 2 * g <= u
    ensures SnapHeight(k * u - g, u) == Max(u, k * u)
  {
    assert 2 * u * k == 2 * (k * u);
    RoundDivUnique(k * u - g, u, k);
  }

  /** `Math.max(slotH, k * slotH)` is `k` slots for positive `k`. */
  lemma MaxSlots(k: int, slotH: int)
    requires slotH > 0
    ensures Max(slotH, k * slotH) == if k >= 1 then k * slotH else slotH
  {
    if k >= 1 {
      MulMono(slotH, 1, k);
    } else {
      MulMono(slotH, k, 0);
    }
  }

  /** TopEdgeKeepsBottom in minutes, for the exact box an element on whole
      slots is pressed with: the resized event ends at the start of slot
      `i + n`, where it ended before, unless it was cut down to one slot. */
  lemma TopEdgeSpan(cfg: Config, slotH: int, i: nat, n: int, dy: int)
    requires cfg.Valid() && slotH >= 8
    ensures var u := SlotUnits(cfg, slotH);
            var t := ResizeTimes(cfg, slotH, TopEdge, i * u, n * u - 4 * cfg.slotMinutes, dy);
            t.end >= cfg.DayStart() + cfg.slotMinutes
            && (t.end == SlotStart(cfg, i + n) || t.duration == cfg.slotMinutes)
  {
    var sm := cfg.slotMinutes;
    var u := SlotUnits(cfg, slotH);
    MulMono(sm, 8, slotH);
    var b := ResizeBox(TopEdge, i * u, n * u - 4 * sm, dy * sm, u);
    TopEdgeKeepsBottom(i, n, dy * sm, u, 4 * sm);
    if b.height == u {
      MultipleOf(1, u);
    } else {
      SpanEnd(cfg, slotH, b, i + n);
    }
  }

  /** An aligned box whose bottom is on slot boundary `m` ends at the start
      of slot `m`. */
  lemma SpanEnd(cfg: Config, slotH: int, b: Box, m: int)
    requires cfg.Valid() && slotH > 0
    requires b.height >= SlotUnits(cfg, slotH) && b.height % SlotUnits(cfg, slotH) == 0
    requires b.top % SlotUnits(cfg, slotH) == 0 && b.top + b.height == m * SlotUnits(cfg, slotH)
    ensures ResizeSpan(cfg, slotH, b).end == SlotStart(cfg, m)
  {
    var u := SlotUnits(cfg, slotH);
    var t := ResizeSpan(cfg, slotH, b);
    var j := b.top / u;
    var h := b.height / u;
    SlotSum(j, h, m, u, cfg.slotMinutes, b.top, b.height);
    assert t.start == cfg.DayStart() + j * cfg.slotMinutes;
    assert t.duration == h * cfg.slotMinutes;
  }

  /** Slots `j` and `h` that fill `m` slots of units fill `m` slots of
      minutes. */
  lemma SlotSum(j: int, h: int, m: int, u: int, sm: int, top: int, height: int)
    requires u > 0 && top == j * u && height == h * u && top + height == m * u
    ensures j * sm + h * sm == m * sm
  {
    assert (j + h) * u == m * u;
    Cancel(j + h, m, u);
  }

  /** Equal multiples of a positive number have equal factors. */
  lemma Cancel(x: int, y: int, d: int)
    requires d > 0 && x * d == y * d
    ensures x == y
  {
    MultipleOf(x, d);
    MultipleOf(y, d);
  }

  /** The box an event on whole slots is drawn with: starting on slot `i`
      and `n` slots long, its element sits at the slot's top and is `n`
      slots tall less the 4-pixel gap, never under 24 pixels. */
  lemma RenderOfSlots(cfg: Config, slotH: int, e: Scheduled, i: int, n: int)
    requires cfg.slotMinutes > 0 && slotH > 0
    requires TimeToMinutes(e.start) == Fin(SlotStart(cfg, i))
    requires TimeToMinutes(e.end) == Fin(SlotStart(cfg, i + n))
    ensures RenderTop(cfg, slotH, e) == i * slotH
    ensures RenderHeight(cfg, slotH, e) == Max(MinElementHeight, n * slotH - 4)
  {
    PixelRoundTrip(cfg, slotH, i);
    PixelRoundTrip(cfg, slotH, i + n);
    SlotPixels(cfg.slotMinutes, slotH, i, n);
  }

  /** `n` slots of `sm` minutes are `n * slotH` pixels. */
  lemma SlotPixels(sm: int, slotH: int, i: int, n: int)
    requires sm > 0
    ensures ((i * sm + n * sm - i * sm) * slotH) / sm == n * slotH
  {
    assert (i * sm + n * sm - i * sm) * slotH == sm * (n * slotH);
    DivUnique(sm * (n * slotH), sm, n * slotH);
  }

  /** Pressing a handle of an event on whole slots starts the resize from
      the exact box: the top of slot `i` and `n` slots less the 4-pixel
      gap, never under 24 pixels, in sub-pixels. */
  lemma ResizeFromSlots(s: Planner, cfg: Config, slotH: int, k: nat, edge: Edge, i: int, n: int)
    requires cfg.slotMinutes > 0 && slotH > 0 && k < |s.scheduled|
    requires s.scheduled[k].patientId in PatientIds(s.patients)
    requires TimeToMinutes(s.scheduled[k].start) == Fin(SlotStart(cfg, i))
    requires TimeToMinutes(s.scheduled[k].end) == Fin(SlotStart(cfg, i + n))
    ensures var u := SlotUnits(cfg, slotH);
            StartResize(s, cfg, slotH, k, edge).gesture
            == Resizing(s.scheduled[k].id, edge, i * u, Max(MinElementHeight * cfg.slotMinutes, n * u - 4 * cfg.slotMinutes))
  {
    var e := s.scheduled[k];
    var sm := cfg.slotMinutes;
    SlotUnitsOf(sm, slotH, i, n);
    assert ExactTop(cfg, slotH, e) == (i * sm) * slotH;
    assert ExactHeight(cfg, slotH, e) == Max(MinElementHeight * sm, ((i + n) * sm - i * sm) * slotH - 4 * sm);
  }

  /** Slot `i` is `i` slots of sub-pixels below the day's start, and `n`
      slots of minutes are `n` slots of sub-pixels. */
  lemma SlotUnitsOf(sm: int, slotH: int, i: int, n: int)
    ensures (i * sm) * slotH == i * (slotH * sm)
    ensures ((i + n) * sm - i * sm) * slotH == n * (slotH * sm)
  {
    assert (i + n) * sm - i * sm == n * sm;
  }

  /** Dragging the top edge of an event that ends on a slot boundary keeps
      its end, unless the one-slot minimum applies; `slotH >= 8` and
      `n * slotH >= 28` make the element's height exactly `n` slots less
      the gap, as with the default 28-pixel slots. */
  lemma TopEdgeKeepsEnd(s: Planner, cfg: Config, slotH: int, k: nat, dy: int, i: nat, n: int)
    requires cfg.Valid() && slotH >= 8 && k < |s.scheduled| && n * slotH >= 28
    requires s.scheduled[k].patientId in PatientIds(s.patients)
    requires TimeToMinutes(s.scheduled[k].start) == Fin(SlotStart(cfg, i))
    requires TimeToMinutes(s.scheduled[k].end) == Fin(SlotStart(cfg, i + n))
    requires IndexOf(EventIds(s.scheduled), s.scheduled[k].id) == Some(k)
    ensures var e' := ResizeMove(StartResize(s, cfg, slotH, k, TopEdge), cfg, slotH, dy).scheduled[k];
            TimeToMinutes(e'.end) == Fin(SlotStart(cfg, i + n)) || e'.duration == cfg.slotMinutes
  {
    var e := s.scheduled[k];
    var sm := cfg.slotMinutes;
    var u := SlotUnits(cfg, slotH);
    var s1 := StartResize(s, cfg, slotH, k, TopEdge);
    ResizeFromSlots(s, cfg, slotH, k, TopEdge, i, n);
    GapHeight(sm, slotH, n);
    var g := s1.gesture;
    assert g.originTop == i * u && g.originHeight == n * u - 4 * sm;
    assert EventIds(s1.scheduled)[k] == e.id;
    assert Rendered(s1, e.id);
    ResizeMoveAt(s1, cfg, slotH, k, dy);
    TopEdgeSpan(cfg, slotH, i, n, dy);
  }

  /** During a resize of the event at `k`, a mouse move gives that event
      the times of the box. */
  lemma ResizeMoveAt(s: Planner, cfg: Config, slotH: int, k: nat, dy: int)
    requires cfg.Valid() && slotH > 0 && k < |s.scheduled|
    requires s.gesture.Resizing? && Rendered(s, s.gesture.id)
    requires IndexOf(EventIds(s.scheduled), s.gesture.id) == Some(k)
    ensures var g := s.gesture;
            ResizeMove(s, cfg, slotH, dy).scheduled[k]
            == Resized(s.scheduled[k], ResizeTimes(cfg, slotH, g.edge, g.originTop, g.originHeight, dy))
  {
  }

  /** An element at least 28 pixels tall is drawn exactly 4 pixels short
      of its slots. */
  lemma GapHeight(sm: int, slotH: int, n: int)
    requires sm > 0 && n * slotH >= 28
    ensures Max(MinElementHeight * sm, n * (slotH * sm) - 4 * sm) == n * (slotH * sm) - 4 * sm
  {
    assert n * (slotH * sm) == sm * (n * slotH);
    MulMono(sm, 28, n * slotH);
  }

  /** Neither edge is held inside the visible day: dragging the bottom edge
      of a one-slot box at the top of the grid down by a column's height
      ends the event after the day, and dragging its top edge down as far
      starts it at the day's end. */
  lemma ResizeLeavesDay(cfg: Config, slotH: int)
    requires cfg.Valid() && slotH > 0
    ensures var u := SlotUnits(cfg, slotH);
            ResizeTimes(cfg, slotH, BottomEdge, 0, u, cfg.TotalSlots() * slotH).end > cfg.DayEnd()
    ensures var u := SlotUnits(cfg, slotH);
            ResizeTimes(cfg, slotH, TopEdge, 0, u, cfg.TotalSlots() * slotH).start >= cfg.DayEnd()
  {
    var n := cfg.TotalSlots();
    var u := SlotUnits(cfg, slotH);
    assert (n * slotH) * cfg.slotMinutes == n * u;
    BottomBox(n, u);
    MultipleOf(0, u);
    SpanEnd(cfg, slotH, Box(0, (n + 1) * u), n + 1);
    TopBox(n, u);
    MultipleOf(n, u);
  }

  /** Dragging the bottom edge of a one-slot box at the top down by `n`
      slots makes it `n + 1` slots tall. */
  lemma BottomBox(n: nat, slotH: int)
    requires slotH > 0
    ensures ResizeBox(BottomEdge, 0, slotH, n * slotH, slotH) == Box(0, (n + 1) * slotH)
  {
    assert slotH + n * slotH == (n + 1) * slotH;
    MultipleOf(n + 1, slotH);
    SnapAligned((n + 1) * slotH, slotH);
    MulMono(slotH, 1, n + 1);
  }

  /** Dragging the top edge of a box at the top down by `n` slots puts its
      top on slot `n`. */
  lemma TopBox(n: nat, slotH: int)
    requires slotH > 0
    ensures ResizeBox(TopEdge, 0, slotH, n * slotH, slotH).top == n * slotH
  {
    MultipleOf(n, slotH);
    SnapAligned(n * slotH, slotH);
    MulMono(slotH, 0, n);
  }

  /** Event `e` with the times of span `t` (planner.js:771-773). */
  function Resized(e: Scheduled, t: Span): (e': Scheduled)
    ensures e' == e.(start := e'.start, end := e'.end, duration := t.duration)
    ensures t.start >= 0 ==> TimeToMinutes(e'.start) == Fin(t.start)
    ensures t.end >= 0 ==> TimeToMinutes(e'.end) == Fin(t.end)
  {
    var start := MinutesToTime(Fin(t.start));
    var end := MinutesToTime(Fin(t.end));
    TimeRoundTripIf(Fin(t.start));
    TimeRoundTripIf(Fin(t.end));
    e.(start := start, end := end, duration := t.duration)
  }

  /** A mouse move during a resize (planner.js:739-775): the first event
      with the resized id gets the box's start, end and duration. Nothing
      happens without a resize or without the element. Nothing is saved. */
  function ResizeMove(s: Planner, cfg: Config, slotH: int, dy: int): (r: Planner)
    requires cfg.Valid() && slotH > 0
    ensures OnlyEventsChanged(s, r)
    ensures !s.gesture.Resizing? || !Rendered(s, s.gesture.id) ==> r == s
    ensures s.gesture.Resizing? && Rendered(s, s.gesture.id) ==>
      && s.gesture.id in EventIds(s.scheduled)
      && var g := s.gesture;
         var k := IndexOf(EventIds(s.scheduled), g.id).value;
         && OthersUnchanged(s.scheduled, r.scheduled, k)
         && r.scheduled[k] == Resized(s.scheduled[k], ResizeTimes(cfg, slotH, g.edge, g.originTop, g.originHeight, dy))
  {
    match s.gesture
    case Resizing(id, edge, originTop, originHeight) =>
      if !Rendered(s, id) then s
      else
        RenderedHasColumn(s, id);
        var k := IndexOf(EventIds(s.scheduled), id).value;
        var t := ResizeTimes(cfg, slotH, edge, originTop, originHeight, dy);
        s.(scheduled := s.scheduled[k := Resized(s.scheduled[k], t)])
    case _ => s
  }

  /** A resize leaves the event a positive whole number of slots long, its
      end that many minutes after its start. */
  lemma ResizeMoveWholeSlots(s: Planner, cfg: Config, slotH: int, dy: int)
    requires cfg.Valid() && slotH > 0
    requires s.gesture.Resizing? && Rendered(s, s.gesture.id)
    ensures s.gesture.id in EventIds(s.scheduled)
    ensures var k := IndexOf(EventIds(s.scheduled), s.gesture.id).value;
            var e' := ResizeMove(s, cfg, slotH, dy).scheduled[k];
            && e'.duration >= cfg.slotMinutes && e'.duration % cfg.slotMinutes == 0
            && (s.gesture.edge == TopEdge || s.gesture.originTop >= 0 ==>
                  && TimeToMinutes(e'.start).Fin? && TimeToMinutes(e'.start).v >= cfg.DayStart()
                  && TimeToMinutes(e'.end) == Fin(TimeToMinutes(e'.start).v + e'.duration))
  {
    RenderedHasColumn(s, s.gesture.id);
    var g := s.gesture;
    var k := IndexOf(EventIds(s.scheduled), g.id).value;
    var b := ResizeBox(g.edge, g.originTop, g.originHeight, dy * cfg.slotMinutes, SlotUnits(cfg, slotH));
    ResizeMoveAt(s, cfg, slotH, k, dy);
    ResizedWhole(cfg, slotH, s.scheduled[k], b);
  }

  /** The event a box gives is a positive whole number of slots long, and
      when the box starts on the grid its end is that far after its start. */
  lemma ResizedWhole(cfg: Config, slotH: int, e: Scheduled, b: Box)
    requires cfg.Valid() && slotH > 0
    requires b.height >= SlotUnits(cfg, slotH) && b.height % SlotUnits(cfg, slotH) == 0
    ensures var e' := Resized(e, ResizeSpan(cfg, slotH, b));
            && e'.duration >= cfg.slotMinutes && e'.duration % cfg.slotMinutes == 0
            && (b.top >= 0 ==>
                  && TimeToMinutes(e'.start).Fin? && TimeToMinutes(e'.start).v >= cfg.DayStart()
                  && TimeToMinutes(e'.end) == Fin(TimeToMinutes(e'.start).v + e'.duration))
  {
    var t := ResizeSpan(cfg, slotH, b);
    if b.top >= 0 {
      assert t.start >= cfg.DayStart() >= 0;
      assert t.end == t.start + t.duration;
    }
  }

  /** Every offset is measured from the press, so only the last mouse move
      of a resize counts. */
  lemma ResizeMoveLastWins(s: Planner, cfg: Config, slotH: int, dy1: int, dy2: int)
    requires cfg.Valid() && slotH > 0
    ensures ResizeMove(ResizeMove(s, cfg, slotH, dy1), cfg, slotH, dy2) == ResizeMove(s, cfg, slotH, dy2)
  {
    if s.gesture.Resizing? && Rendered(s, s.gesture.id) {
      ResizeMoveTwice(s, cfg, slotH, dy1, dy2);
    }
  }

  /** ResizeMoveLastWins for a resize whose element is on the grid. */
  lemma ResizeMoveTwice(s: Planner, cfg: Config, slotH: int, dy1: int, dy2: int)
    requires cfg.Valid() && slotH > 0
    requires s.gesture.Resizing? && Rendered(s, s.gesture.id)
    ensures ResizeMove(ResizeMove(s, cfg, slotH, dy1), cfg, slotH, dy2) == ResizeMove(s, cfg, slotH, dy2)
  {
    var s1 := ResizeMove(s, cfg, slotH, dy1);
    var k := IndexOf(EventIds(s.scheduled), s.gesture.id).value;
    assert EventIds(s1.scheduled) == EventIds(s.scheduled);
    assert PatientIds(s1.patients) == PatientIds(s.patients);
    assert s1.scheduled[k].id == s.scheduled[k].id && s1.scheduled[k].patientId == s.scheduled[k].patientId;
    assert Rendered(s1, s.gesture.id);
    var g := s.gesture;
    var t1 := ResizeTimes(cfg, slotH, g.edge, g.originTop, g.originHeight, dy1);
    var t2 := ResizeTimes(cfg, slotH, g.edge, g.originTop, g.originHeight, dy2);
    ResizedTwice(s.scheduled[k], t1, t2);
    assert s1.scheduled[k := Resized(s1.scheduled[k], t2)] == s.scheduled[k := Resized(s.scheduled[k], t2)];
  }

  /** A later resize step overwrites everything an earlier one set. */
  lemma ResizedTwice(e: Scheduled, t1: Span, t2: Span)
    ensures Resized(Resized(e, t1), t2) == Resized(e, t2)
  {
  }

  /** Dragging the bottom edge of an event keeps its start, whatever
      minute it starts on: the press reads back the exact top, which
      converts back to the same minute. */
  lemma BottomEdgeKeepsStart(s: Planner, cfg: Config, slotH: int, k: nat, dy: int)
    requires cfg.Valid() && slotH > 0 && k < |s.scheduled|
    requires s.scheduled[k].patientId in PatientIds(s.patients)
    requires TimeToMinutes(s.scheduled[k].start).Fin? && TimeToMinutes(s.scheduled[k].start).v >= 0
    requires IndexOf(EventIds(s.scheduled), s.scheduled[k].id) == Some(k)
    ensures var r := ResizeMove(StartResize(s, cfg, slotH, k, BottomEdge), cfg, slotH, dy);
            TimeToMinutes(r.scheduled[k].start) == TimeToMinutes(s.scheduled[k].start)
  {
    var e := s.scheduled[k];
    var m := TimeToMinutes(e.start).v;
    var s1 := StartResize(s, cfg, slotH, k, BottomEdge);
    var top := ExactTop(cfg, slotH, e);
    assert s1.gesture == Resizing(e.id, BottomEdge, top, ExactHeight(cfg, slotH, e));
    assert EventIds(s1.scheduled)[k] == e.id;
    assert Rendered(s1, e.id);
    var b := ResizeBox(BottomEdge, top, ExactHeight(cfg, slotH, e), dy * cfg.slotMinutes, SlotUnits(cfg, slotH));
    assert b.top == (m - cfg.DayStart()) * slotH;
    MultipleOf(m - cfg.DayStart(), slotH);
    var t := ResizeSpan(cfg, slotH, b);
    assert t.start == m;
    var r := ResizeMove(s1, cfg, slotH, dy);
    assert r.scheduled[k] == Resized(e, t);
  }

  /** Releasing the mouse after a resize (planner.js:777-784): the working
      set, changed by the moves already, is saved exactly when a resize was
      under way, and the release itself changes no list. */
  function EndResize(s: Planner): (o: Outcome)
    ensures o.save <==> s.gesture.Resizing?
    ensures o.next == s.(gesture := o.next.gesture)
    ensures o.save ==> o.next.gesture == Idle
    ensures !o.save ==> o.next == s
  {
    if s.gesture.Resizing? then Outcome(s.(gesture := Idle), true) else Outcome(s, false)
  }
}
