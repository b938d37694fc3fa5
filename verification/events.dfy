/** Creating and editing scheduled events: template drop, reassign drop,
    quick create, the edit form, delete, and the staff chips of an event
    (planner.js:332-369, 371-389, 498-505, 550-556, 579-592, 870-928,
    978-994). */
module Events {
  import opened Optional
  import opened Seqs
  import opened Js
  import opened Time
  import opened Grid
  import opened Entities
  import opened Registry

  /** The drag-and-drop payload (`JSON.parse(dataTransfer.getData(...))`);
      a payload that does not parse is ignored by every drop handler. */
  datatype DropData =
    | TemplateRef(id: string)
    | ScheduledRef(id: string)
    | StaffRef(id: string)
    | Unreadable

  /** The minimum duration the forms accept. */
  const MinFormDuration: int := 15

  /** The duration the quick-create form falls back to. */
  const QuickDefaultDuration: int := 30

  // ---------- template drop ----------

  /** The event a template drop creates (planner.js:339-351): the template's
      fields with their fallbacks, a copy of its staff list, and the time
      range starting at `startMins`. */
  function Instantiate(cfg: Config, tpl: Template, day: int, patientId: string, startMins: int, id: string): (e: Scheduled)
    ensures e.id == id && e.date == day && e.patientId == patientId
    ensures e.staff == tpl.staff && e.description == tpl.description
    ensures e.title == (if tpl.title != [] then tpl.title else "Untitled")
    ensures e.color == (if tpl.color != [] then tpl.color else "#4e79a7")
    ensures e.duration == (if tpl.duration != 0 then tpl.duration else cfg.defaultDuration)
    ensures startMins >= 0 ==> TimeToMinutes(e.start) == Fin(startMins)
    ensures startMins + e.duration >= 0 ==> TimeToMinutes(e.end) == Fin(startMins + e.duration)
  {
    var duration := OrElse(Fin(tpl.duration), cfg.defaultDuration);
    var start := MinutesToTime(Fin(startMins));
    var end := MinutesToTime(Fin(startMins + duration));
    TimeRoundTripIf(Fin(startMins));
    TimeRoundTripIf(Fin(startMins + duration));
    Scheduled(
      id,
      OrElseText(tpl.title, "Untitled"),
      tpl.description,
      OrElseText(tpl.color, "#4e79a7"),
      duration,
      tpl.staff,
      day,
      patientId,
      start,
      end)
  }

  /** Dropping template `templateId` on the cell of `slot` in `column`
      (planner.js:336-354). An unknown template leaves everything as it was
      (the handler returns before saving); a known one is instantiated at
      the slot's start in that patient's column and appended. */
  function TemplateDrop(s: Planner, cfg: Config, templateId: string, column: nat, slot: nat, freshId: string): (r: Option<Planner>)
    requires cfg.Valid() && column < |s.patients| && slot < cfg.TotalSlots()
    ensures r.None? <==> templateId !in TemplateIds(s.templates)
    ensures r.Some? ==> OnlyEventsChanged(s, r.value)
    ensures r.Some? ==>
      && |r.value.scheduled| == |s.scheduled| + 1
      && r.value.scheduled[..|s.scheduled|] == s.scheduled
      && var e := r.value.scheduled[|s.scheduled|];
         && e == Instantiate(cfg, s.templates[IndexOf(TemplateIds(s.templates), templateId).value],
                             s.date, s.patients[column].id, SlotStart(cfg, slot), freshId)
         && TimeToMinutes(e.start).Fin?
         && cfg.DayStart() <= TimeToMinutes(e.start).v
         && TimeToMinutes(e.start).v + cfg.slotMinutes <= cfg.DayEnd()
         && SlotOf(cfg, TimeToMinutes(e.start).v) == slot
  {
    match IndexOf(TemplateIds(s.templates), templateId)
    case None => None
    case Some(t) =>
      SlotStartInDay(cfg, slot);
      SlotRoundTrip(cfg, slot);
      var e := Instantiate(cfg, s.templates[t], s.date, s.patients[column].id, SlotStart(cfg, slot), freshId);
      assert (s.scheduled + [e])[..|s.scheduled|] == s.scheduled;
      Some(s.(scheduled := s.scheduled + [e]))
  }

  // ---------- reassign drop ----------

  /** Event `e` moved to `patientId` at `startMins` the way planner.js:360-362
      does it: `start` is overwritten first, then `end` is set to
      `start + (end - start)` with the new start on both sides, so a
      canonical end stays where it was. */
  function MovedAsWritten(e: Scheduled, patientId: string, startMins: int): (e': Scheduled)
    requires startMins >= 0
    ensures e' == e.(patientId := patientId, start := e'.start, end := e'.end)
    ensures TimeToMinutes(e'.start) == Fin(startMins)
    ensures Canonical(e.end) ==> e'.end == e.end
  {
    var start := MinutesToTime(Fin(startMins));
    TimeRoundTrip(Fin(startMins));
    var end := MinutesToTime(Add(Fin(startMins), Sub(TimeToMinutes(e.end), TimeToMinutes(start))));
    CanonicalShift(e.end, startMins);
    e.(patientId := patientId, start := start, end := end)
  }

  /** Adding `a` to `t - a` gives back a canonical time `t`. */
  lemma CanonicalShift(t: string, a: int)
    ensures Canonical(t) ==> MinutesToTime(Add(Fin(a), Sub(TimeToMinutes(t), Fin(a)))) == t
  {
    var m := TimeToMinutes(t);
    if m.Fin? {
      assert Add(Fin(a), Sub(m, Fin(a))) == m;
    }
  }

  /** Dropping scheduled event `eventId` on the cell of `slot` in `column`,
      exactly as planner.js:357-362 does it: the event moves to the column's
      patient and the slot's start, and its end does not move. */
  function ReassignDropAsWritten(s: Planner, cfg: Config, eventId: string, column: nat, slot: nat): (r: Option<Planner>)
    requires cfg.Valid() && column < |s.patients| && slot < cfg.TotalSlots()
    ensures r.None? <==> eventId !in EventIds(s.scheduled)
    ensures r.Some? ==> OnlyEventsChanged(s, r.value)
    ensures r.Some? ==>
      var k := IndexOf(EventIds(s.scheduled), eventId).value;
      && OthersUnchanged(s.scheduled, r.value.scheduled, k)
      && r.value.scheduled[k] == MovedAsWritten(s.scheduled[k], s.patients[column].id, SlotStart(cfg, slot))
  {
    match IndexOf(EventIds(s.scheduled), eventId)
    case None => None
    case Some(k) =>
      SlotStartInDay(cfg, slot);
      Some(s.(scheduled := s.scheduled[k := MovedAsWritten(s.scheduled[k], s.patients[column].id, SlotStart(cfg, slot))]))
  }

  /** The discrepancy of the drop as written: an event whose end lies before
      the slot it is dropped on ends up ending before it starts. */
  lemma ReassignAsWrittenEndsBeforeStart(s: Planner, cfg: Config, eventId: string, column: nat, slot: nat)
    requires cfg.Valid() && column < |s.patients| && slot < cfg.TotalSlots()
    requires eventId in EventIds(s.scheduled)
    requires var e := s.scheduled[IndexOf(EventIds(s.scheduled), eventId).value];
             Canonical(e.end) && TimeToMinutes(e.end).v < SlotStart(cfg, slot)
    ensures var r := ReassignDropAsWritten(s, cfg, eventId, column, slot);
            var e' := r.value.scheduled[IndexOf(EventIds(s.scheduled), eventId).value];
            TimeToMinutes(e'.end).Fin? && TimeToMinutes(e'.start).Fin?
            && TimeToMinutes(e'.end).v < TimeToMinutes(e'.start).v
  {
  }

  /** Event `e` moved to `patientId` at `startMins` keeping its length:
      `end - start` is read before `start` is overwritten. */
  function MovedKeepingLength(e: Scheduled, patientId: string, startMins: int): (e': Scheduled)
    requires startMins >= 0
    ensures e' == e.(patientId := patientId, start := e'.start, end := e'.end)
    ensures TimeToMinutes(e'.start) == Fin(startMins)
    ensures var len := Sub(TimeToMinutes(e.end), TimeToMinutes(e.start));
            && (len.Fin? && startMins + len.v >= 0 ==> Sub(TimeToMinutes(e'.end), TimeToMinutes(e'.start)) == len)
            && (len.NaN? ==> TimeToMinutes(e'.end).NaN?)
  {
    var len := Sub(TimeToMinutes(e.end), TimeToMinutes(e.start));
    var start := MinutesToTime(Fin(startMins));
    var end := MinutesToTime(Add(Fin(startMins), len));
    TimeRoundTrip(Fin(startMins));
    TimeRoundTripIf(Add(Fin(startMins), len));
    e.(patientId := patientId, start := start, end := end)
  }

  /** The reassign drop as evidently intended (the handler's comment speaks
      of moving patient and start time): the event moves to the column's
      patient and the slot's start and keeps its length. */
  function ReassignDrop(s: Planner, cfg: Config, eventId: string, column: nat, slot: nat): (r: Option<Planner>)
    requires cfg.Valid() && column < |s.patients| && slot < cfg.TotalSlots()
    ensures r.None? <==> eventId !in EventIds(s.scheduled)
    ensures r.Some? ==> OnlyEventsChanged(s, r.value)
    ensures r.Some? ==>
      var k := IndexOf(EventIds(s.scheduled), eventId).value;
      && OthersUnchanged(s.scheduled, r.value.scheduled, k)
      && r.value.scheduled[k] == MovedKeepingLength(s.scheduled[k], s.patients[column].id, SlotStart(cfg, slot))
  {
    match IndexOf(EventIds(s.scheduled), eventId)
    case None => None
    case Some(k) =>
      SlotStartInDay(cfg, slot);
      Some(s.(scheduled := s.scheduled[k := MovedKeepingLength(s.scheduled[k], s.patients[column].id, SlotStart(cfg, slot))]))
  }

  // ---------- the event form: quick create and new template ----------

  /** The event form's fields, as typed. */
  datatype EventForm = EventForm(title: string, color: string, duration: string, description: string)

  /** What a double-click on a cell records for the form (planner.js:372-380). */
  datatype QuickTarget = QuickTarget(patientId: string, startMins: int)

  /** Double-clicking the cell of `slot` in `column` targets that patient at
      the slot's start. */
  function QuickTargetAt(s: Planner, cfg: Config, column: nat, slot: nat): (q: QuickTarget)
    requires cfg.Valid() && column < |s.patients| && slot < cfg.TotalSlots()
    ensures q.patientId == s.patients[column].id
    ensures SlotOf(cfg, q.startMins) == slot && Aligned(cfg, q.startMins)
    ensures cfg.DayStart() <= q.startMins < cfg.DayEnd()
  {
    SlotRoundTrip(cfg, slot);
    SlotStartInDay(cfg, slot);
    QuickTarget(s.patients[column].id, SlotStart(cfg, slot))
  }

  /** `Math.max(15, Number(field) || fallback)` (planner.js:877, 984): the
      typed duration when it is a non-zero number, the fallback otherwise,
      never below 15. */
  function FormDuration(field: string, fallback: int): (d: int)
    ensures d >= MinFormDuration
    ensures d == MinFormDuration || d == fallback || Number(field) == Fin(d)
    ensures Number(field).Fin? && Number(field).v >= MinFormDuration ==> d == Number(field).v
    ensures Number(field).Fin? && Number(field).v != 0 ==> d == Max(MinFormDuration, Number(field).v)
    ensures Number(field) == Fin(0) || Number(field).NaN? ==> d == Max(MinFormDuration, fallback)
  {
    Max(MinFormDuration, OrElse(Number(field), fallback))
  }

  /** Submitting the event form (planner.js:870-928). An empty title
      (after trimming) is refused. With a recorded quick-create target a
      scheduled event without staff is appended; without one a new template
      is appended. */
  function SubmitEventForm(s: Planner, form: EventForm, quick: Option<QuickTarget>, freshId: string): (r: Option<Planner>)
    ensures r.None? <==> Trim(form.title) == []
    ensures r.Some? && quick.Some? ==>
      && OnlyEventsChanged(s, r.value)
      && |r.value.scheduled| == |s.scheduled| + 1
      && r.value.scheduled[..|s.scheduled|] == s.scheduled
    ensures r.Some? && quick.Some? ==>
      var e := r.value.scheduled[|s.scheduled|];
      && e.id == freshId && e.date == s.date && e.staff == []
      && e.title == Trim(form.title) && e.title != []
      && e.description == Trim(form.description) && e.color == form.color
      && e.patientId == quick.value.patientId
      && e.duration == FormDuration(form.duration, QuickDefaultDuration)
      && (quick.value.startMins >= 0 ==>
            && TimeToMinutes(e.start) == Fin(quick.value.startMins)
            && TimeToMinutes(e.end) == Fin(quick.value.startMins + e.duration))
    ensures r.Some? && quick.None? ==>
      && r.value == s.(templates := r.value.templates)
      && |r.value.templates| == |s.templates| + 1
      && r.value.templates[..|s.templates|] == s.templates
    ensures r.Some? && quick.None? ==>
      var t := r.value.templates[|s.templates|];
      && t.id == freshId && t.staff == [] && t.title == Trim(form.title)
      && t.description == Trim(form.description) && t.color == form.color
      && t.duration == FormDuration(form.duration, QuickDefaultDuration)
  {
    var title := Trim(form.title);
    if title == [] then None
    else
      var duration := FormDuration(form.duration, QuickDefaultDuration);
      var description := Trim(form.description);
      match quick
      case Some(q) =>
        var start := MinutesToTime(Fin(q.startMins));
        var end := MinutesToTime(Fin(q.startMins + duration));
        TimeRoundTripIf(Fin(q.startMins));
        TimeRoundTripIf(Fin(q.startMins + duration));
        var e := Scheduled(freshId, title, description, form.color, duration, [], s.date, q.patientId, start, end);
        assert (s.scheduled + [e])[..|s.scheduled|] == s.scheduled;
        Some(s.(scheduled := s.scheduled + [e]))
      case None =>
        var t := Template(freshId, title, description, form.color, duration, []);
        assert (s.templates + [t])[..|s.templates|] == s.templates;
        Some(s.(templates := s.templates + [t]))
  }

  // ---------- the edit form ----------

  /** The edit form's fields, as typed; `start` is the raw time input. */
  datatype EditForm = EditForm(title: string, start: string, duration: string, color: string, description: string)

  /** Event `e` after the edit form is committed (planner.js:982-987): the
      typed start is kept as typed, the end is recomputed from it and the
      new duration, and an empty title keeps the old one. Identity, patient,
      date and staff are untouched. */
  function Edited(e: Scheduled, form: EditForm): (e': Scheduled)
    ensures e' == e.(title := e'.title, start := e'.start, duration := e'.duration, end := e'.end,
                     color := e'.color, description := e'.description)
    ensures e'.start == form.start && e'.color == form.color && e'.description == Trim(form.description)
    ensures e'.duration == FormDuration(form.duration, e.duration)
    ensures Trim(form.title) == [] ==> e'.title == e.title
    ensures Trim(form.title) != [] ==> e'.title == Trim(form.title)
    ensures var st := TimeToMinutes(form.start);
            && (st.Fin? && st.v + e'.duration >= 0 ==> TimeToMinutes(e'.end) == Fin(st.v + e'.duration))
            && (st.NaN? ==> TimeToMinutes(e'.end).NaN?)
  {
    var duration := FormDuration(form.duration, e.duration);
    var endMins := Add(TimeToMinutes(form.start), Fin(duration));
    var end := MinutesToTime(endMins);
    TimeRoundTripIf(endMins);
    e.(
      title := OrElseText(Trim(form.title), e.title),
      start := form.start,
      duration := duration,
      end := end,
      color := form.color,
      description := Trim(form.description))
  }

  /** Submitting the edit form for event `k` (planner.js:978-994). Without
      an event being edited (`editing` is None, or it no longer is in the
      list) nothing happens; otherwise only that event changes. */
  function SubmitEditor(s: Planner, editing: Option<nat>, form: EditForm): (r: Option<Planner>)
    ensures r.None? <==> editing.None? || editing.value >= |s.scheduled|
    ensures r.Some? ==> OnlyEventsChanged(s, r.value)
    ensures r.Some? ==>
      && OthersUnchanged(s.scheduled, r.value.scheduled, editing.value)
      && r.value.scheduled[editing.value] == Edited(s.scheduled[editing.value], form)
  {
    if editing.None? || editing.value >= |s.scheduled| then None
    else
      var k := editing.value;
      Some(s.(scheduled := s.scheduled[k := Edited(s.scheduled[k], form)]))
  }

  // ---------- delete and staff chips ----------

  /** The events that survive deleting event id `id`. */
  function OtherEvent(id: string): Scheduled -> bool {
    (e: Scheduled) => e.id != id
  }

  /** The event menu's Delete (planner.js:553): every event with the id of
      event `k` is removed, the others stay in order. */
  function DeleteEvent(s: Planner, k: nat): (r: Planner)
    requires k < |s.scheduled|
    ensures OnlyEventsChanged(s, r)
    ensures r.scheduled == Filter(s.scheduled, OtherEvent(s.scheduled[k].id))
    ensures s.scheduled[k].id !in EventIds(r.scheduled)
    ensures forall e | e in s.scheduled && e.id != s.scheduled[k].id :: e in r.scheduled
    ensures forall e | e in r.scheduled :: e in s.scheduled
  {
    var id := s.scheduled[k].id;
    var keep := OtherEvent(id);
    var es := Filter(s.scheduled, keep);
    forall e | e in s.scheduled
      ensures e in es <==> keep(e)
    {
      FilterMembership(s.scheduled, keep, e);
    }
    forall e | e in es
      ensures e in s.scheduled
    {
      FilterMembership(s.scheduled, keep, e);
    }
    s.(scheduled := es)
  }

  /** Deleting an event keeps every remaining event in a patient's column
      and its staff pointing at staff members. */
  lemma DeleteEventKeepsInvariants(s: Planner, k: nat)
    requires k < |s.scheduled|
    ensures NoOrphans(s) ==> NoOrphans(DeleteEvent(s, k))
    ensures StaffRefsValid(s) ==> StaffRefsValid(DeleteEvent(s, k))
  {
    var r := DeleteEvent(s, k);
    forall j | 0 <= j < |r.scheduled|
      ensures exists i :: 0 <= i < |s.scheduled| && s.scheduled[i] == r.scheduled[j]
    {
      assert r.scheduled[j] in r.scheduled;
    }
  }

  /** With event ids unique, Delete removes exactly the event its menu was
      opened on and keeps the others in order. */
  lemma DeleteEventExact(s: Planner, k: nat)
    requires k < |s.scheduled| && NoDuplicates(EventIds(s.scheduled))
    ensures DeleteEvent(s, k).scheduled == s.scheduled[..k] + s.scheduled[k + 1..]
  {
    var xs := s.scheduled;
    var keep := OtherEvent(xs[k].id);
    var before, after := xs[..k], xs[k + 1..];
    assert xs == before + ([xs[k]] + after);
    FilterAppend(before, [xs[k]] + after, keep);
    FilterAppend([xs[k]], after, keep);
    forall i | 0 <= i < |before|
      ensures keep(before[i])
    {
      assert EventIds(xs)[i] != EventIds(xs)[k];
    }
    FilterKeepsAll(before, keep);
    forall i | 0 <= i < |after|
      ensures keep(after[i])
    {
      assert EventIds(xs)[k] != EventIds(xs)[k + 1 + i];
    }
    FilterKeepsAll(after, keep);
    assert [xs[k]][1..] == [];
  }

  /** Dropping staff member `staffId` on event `k` (planner.js:583-589):
      appended when absent; when already present the handler does nothing. */
  function AddStaffToEvent(s: Planner, k: nat, staffId: string): (r: Option<Planner>)
    requires k < |s.scheduled|
    ensures r.None? <==> staffId in s.scheduled[k].staff
    ensures r.Some? ==>
      && OnlyEventsChanged(s, r.value)
      && OthersUnchanged(s.scheduled, r.value.scheduled, k)
      && r.value.scheduled[k] == s.scheduled[k].(staff := s.scheduled[k].staff + [staffId])
      && (NoDuplicates(s.scheduled[k].staff) ==> NoDuplicates(r.value.scheduled[k].staff))
  {
    var e := s.scheduled[k];
    if staffId in e.staff then None
    else Some(s.(scheduled := s.scheduled[k := e.(staff := e.staff + [staffId])]))
  }

  /** Clicking a staff chip of event `k` (planner.js:501): every occurrence
      of that staff id leaves the event's list, the rest keep their order. */
  function RemoveStaffChip(s: Planner, k: nat, staffId: string): (r: Planner)
    requires k < |s.scheduled|
    ensures OnlyEventsChanged(s, r)
    ensures OthersUnchanged(s.scheduled, r.scheduled, k)
    ensures r.scheduled[k] == s.scheduled[k].(staff := r.scheduled[k].staff)
    ensures staffId !in r.scheduled[k].staff
    ensures forall x | x in s.scheduled[k].staff && x != staffId :: x in r.scheduled[k].staff
    ensures forall x | x in r.scheduled[k].staff :: x in s.scheduled[k].staff
  {
    var e := s.scheduled[k];
    s.(scheduled := s.scheduled[k := e.(staff := RemoveAll(e.staff, staffId))])
  }

  /** Adding a staff member by drop and removing it by its chip leaves the
      event as it was. */
  lemma AddThenRemoveStaff(s: Planner, k: nat, staffId: string)
    requires k < |s.scheduled| && staffId !in s.scheduled[k].staff
    ensures RemoveStaffChip(AddStaffToEvent(s, k, staffId).value, k, staffId) == s
  {
    var e := s.scheduled[k];
    RemoveAllAppend(e.staff, [staffId], staffId);
    RemoveAbsent(e.staff, staffId);
    assert RemoveAll([staffId], staffId) == [];
    assert e.staff + [] == e.staff;
    assert s.scheduled[k := e] == s.scheduled;
  }

  /** Adding the same staff member twice is adding it once. */
  lemma AddStaffIdempotent(s: Planner, k: nat, staffId: string)
    requires k < |s.scheduled| && staffId !in s.scheduled[k].staff
    ensures AddStaffToEvent(AddStaffToEvent(s, k, staffId).value, k, staffId).None?
  {
  }
}
