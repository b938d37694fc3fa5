/** The page as a whole: every handler applied to the working set, followed
    by the save and reload that handler performs (planner.js:52-91, 108-125,
    146-197, 230-235, 332-369, 498-504, 547-592, 631-784, 787-928, 949-953,
    978-994). */
module Session {
  import opened Optional
  import opened Js
  import opened Grid
  import opened Entities
  import opened Store
  import opened Horizon
  import opened Events
  import opened Registry
  import opened Gestures

  /** The running page: the working set and the browser's storage. */
  datatype App = App(view: Planner, store: Storage)

  /** Which drop handlers the page runs: the program as written
      (Events.ReassignDropAsWritten, Gestures.EndDragAsWritten) or with the
      two length-keeping corrections (Events.ReassignDrop, Gestures.EndDrag). */
  datatype Build = AsWritten | Corrected

  /** What the handlers read besides the page: the configuration, today's
      day number, the grid metrics `getGridMetrics` measures, and which
      build of the drop handlers runs. */
  datatype Env = Env(cfg: Config, today: int, slotH: int, colWidth: int, build: Build)
  {
    predicate Valid() {
      cfg.Valid() && slotH > 0 && colWidth > 0
    }

    /** The navigable window holds at least one day. */
    predicate WindowNonEmpty() {
      cfg.pastDays + cfg.horizonDays >= 1
    }

    function Clamp(d: int): int {
      ClampDate(d, today, cfg.pastDays, cfg.horizonDays)
    }

    predicate InWindow(d: int) {
      Earliest(today, cfg.pastDays) <= d <= Latest(today, cfg.horizonDays)
    }
  }

  // ---------- load, save, refresh ----------

  /** `loadAllForDate` (planner.js:52-66): the four lists of the working set
      are replaced by what storage holds for its date. */
  function Reload(st: Storage, s: Planner): (r: Planner)
    ensures r.date == s.date && r.gesture == s.gesture
    ensures Loaded(r.patients, r.staff, r.templates, r.scheduled) == LoadAllForDate(st, s.date)
  {
    var l := LoadAllForDate(st, s.date);
    s.(patients := l.patients, staff := l.staff, templates := l.templates, scheduled := l.scheduled)
  }

  /** The working set agrees with what storage holds for its date. */
  predicate Synced(a: App) {
    LoadAllForDate(a.store, a.view.date) == Loaded(a.view.patients, a.view.staff, a.view.templates, a.view.scheduled)
  }

  /** `saveAll(); refresh();`: the reload after the save gives back exactly
      the working set that was saved. */
  function Commit(st: Storage, s: Planner): (r: App)
    ensures r.store == SaveAll(st, s)
    ensures r.view == s
    ensures Synced(r)
  {
    var st' := SaveAll(st, s);
    LoadAfterSave(st, s);
    App(Reload(st', s), st')
  }

  // ---------- navigation ----------

  /** `init` (planner.js:85-91): today's date, clamped into the window, and
      its lists. */
  function Init(env: Env, st: Storage): (r: App)
    ensures r.store == st && r.view.gesture == Idle
    ensures r.view.date == env.Clamp(env.today)
    ensures env.WindowNonEmpty() ==> env.InWindow(r.view.date)
    ensures Synced(r)
  {
    App(Reload(st, Planner(env.Clamp(env.today), [], [], [], [], Idle)), st)
  }

  /** The date picker and the previous/next buttons (planner.js:787-815):
      the requested day is clamped into the window and its lists are
      loaded; nothing is saved. */
  function Navigate(env: Env, a: App, requested: int): (r: App)
    ensures r.store == a.store && r.view.gesture == a.view.gesture
    ensures r.view.date == env.Clamp(requested)
    ensures env.WindowNonEmpty() ==> env.InWindow(r.view.date)
    ensures env.InWindow(requested) ==> r.view.date == requested
    ensures Synced(r)
  {
    App(Reload(a.store, a.view.(date := env.Clamp(requested))), a.store)
  }

  // ---------- handlers ----------

  /** Everything a handler can do on the page of one date. */
  datatype Command =
    | SubmitPatientForm(name: string, freshId: string)
    | EditPatientName(idx: nat, text: string)
    | DeletePatientButton(idx: nat)
    | SubmitStaffForm(name: string, color: string, freshId: string)
    | EditStaffName(idx: nat, text: string)
    | UnassignStaffButton(idx: nat)
    | DeleteStaffButton(idx: nat)
    | DeleteTemplateButton(templateId: string)
    | DropOnCell(data: DropData, column: nat, slot: nat, freshId: string)
    | SubmitNewEvent(form: EventForm, quick: Option<QuickTarget>, freshId: string)
    | SubmitEdit(editing: Option<nat>, edit: EditForm)
    | DeleteEventButton(k: nat)
    | DropOnEvent(k: nat, data: DropData)
    | ClickStaffChip(k: nat, staffId: string)
    | PressEvent(k: nat)
    | MoveDrag(dx: int, dy: int)
    | ReleaseDrag
    | PressHandle(k: nat, edge: Edge)
    | MoveResize(dy: int)
    | ReleaseResize

  /** The list rows, grid cells and event elements a command is issued
      from exist. */
  predicate Enabled(env: Env, s: Planner, c: Command)
    requires env.Valid()
  {
    match c
    case EditPatientName(idx, _) => idx < |s.patients|
    case DeletePatientButton(idx) => idx < |s.patients|
    case EditStaffName(idx, _) => idx < |s.staff|
    case UnassignStaffButton(idx) => idx < |s.staff|
    case DeleteStaffButton(idx) => idx < |s.staff|
    case DropOnCell(_, column, slot, _) => column < |s.patients| && slot < env.cfg.TotalSlots()
    case DeleteEventButton(k) => k < |s.scheduled|
    case DropOnEvent(k, _) => k < |s.scheduled|
    case ClickStaffChip(k, _) => k < |s.scheduled|
    case PressEvent(k) => k < |s.scheduled|
    case PressHandle(k, _) => k < |s.scheduled|
    case _ => true
  }

  /** Which storage keys a handler writes. */
  datatype Saved =
    | Nothing
    | PatientsKey
    | StaffKey
    | TemplatesKey
    | All
    | AllTwice(first: Planner)

  /** A handler's new working set and what it saved. */
  datatype Effect = Effect(next: Planner, saved: Saved)

  /** Same date and same four lists; only the gesture may differ. */
  predicate SameLists(s: Planner, t: Planner) {
    t == s.(gesture := t.gesture)
  }

  /** A handler that returns early leaves the page alone; one that gets
      through commits its working set. */
  function CommitIf(s: Planner, r: Option<Planner>): (e: Effect)
    ensures r.None? ==> e == Effect(s, Nothing)
    ensures r.Some? ==> e == Effect(r.value, All)
  {
    match r
    case None => Effect(s, Nothing)
    case Some(t) => Effect(t, All)
  }

  /** A gesture's release saves and reloads only when the handler says so. */
  function FromOutcome(o: Outcome): (e: Effect)
    ensures e.next == o.next
    ensures e.saved == (if o.save then All else Nothing)
  {
    Effect(o.next, if o.save then All else Nothing)
  }

  /** What every handler respects: it keeps the date; a handler that saves
      nothing changes no list (except a resize move, which edits the event
      list unsaved); one that writes a single key changes only the matching
      list; the first of two saves is made at the same date with no more
      patients; and the patient form keeps the patients at or below the
      cap. */
  predicate Confined(s: Planner, c: Command, e: Effect) {
    && e.next.date == s.date
    && (e.saved.Nothing? && !c.MoveResize? ==> SameLists(s, e.next))
    && (e.saved.PatientsKey? ==> e.next == s.(patients := e.next.patients))
    && (e.saved.StaffKey? ==> e.next == s.(staff := e.next.staff))
    && (e.saved.TemplatesKey? ==> e.next == s.(templates := e.next.templates))
    && (e.saved.AllTwice? ==> e.saved.first.date == s.date && |e.saved.first.patients| <= |s.patients|)
    && |e.next.patients| <= Max(|s.patients|, PatientCap)
  }

  /** The sidebar's handlers (planner.js:108-125, 146-197, 230-235, 831-868). */
  function HandleLists(s: Planner, c: Command): (e: Effect)
    requires c.EditPatientName? || c.DeletePatientButton? ==> c.idx < |s.patients|
    requires c.EditStaffName? || c.UnassignStaffButton? || c.DeleteStaffButton? ==> c.idx < |s.staff|
    ensures Confined(s, c, e)
    ensures c.DeletePatientButton? ==> e == Effect(DeletePatient(s, c.idx), AllTwice(DeletePatient(s, c.idx).(scheduled := s.scheduled)))
  {
    match c
    case SubmitPatientForm(name, freshId) =>
      (match AddPatient(s, name, freshId)
       case None => Effect(s, Nothing)
       case Some(t) => Effect(t, PatientsKey))
    case EditPatientName(idx, text) => Effect(RenamePatient(s, idx, text), All)
    case DeletePatientButton(idx) =>
      var t := DeletePatient(s, idx);
      Effect(t, AllTwice(t.(scheduled := s.scheduled)))
    case SubmitStaffForm(name, color, freshId) =>
      (match AddStaff(s, name, color, freshId)
       case None => Effect(s, Nothing)
       case Some(t) => Effect(t, StaffKey))
    case EditStaffName(idx, text) => Effect(RenameStaff(s, idx, text), All)
    case UnassignStaffButton(idx) => Effect(RemoveStaffFromEvents(s, idx), All)
    case DeleteStaffButton(idx) => Effect(DeleteStaff(s, idx), All)
    case DeleteTemplateButton(templateId) => Effect(DeleteTemplate(s, templateId), All)
    case _ => Effect(s, Nothing)
  }

  /** The handlers of the grid's drops, the event forms, the event menu and
      the staff chips (planner.js:332-369, 498-504, 547-592, 870-928,
      978-994). */
  function HandleEvents(cfg: Config, build: Build, s: Planner, c: Command): (e: Effect)
    requires cfg.Valid()
    requires c.DropOnCell? ==> c.column < |s.patients| && c.slot < cfg.TotalSlots()
    requires c.DeleteEventButton? || c.DropOnEvent? || c.ClickStaffChip? ==> c.k < |s.scheduled|
    ensures Confined(s, c, e)
  {
    match c
    case DropOnCell(data, column, slot, freshId) =>
      (match data
       case TemplateRef(id) => CommitIf(s, TemplateDrop(s, cfg, id, column, slot, freshId))
       case ScheduledRef(id) =>
         CommitIf(s, if build.AsWritten? then ReassignDropAsWritten(s, cfg, id, column, slot)
                     else ReassignDrop(s, cfg, id, column, slot))
       case _ => Effect(s, Nothing))
    case SubmitNewEvent(form, quick, freshId) =>
      (match SubmitEventForm(s, form, quick, freshId)
       case None => Effect(s, Nothing)
       case Some(t) => if quick.Some? then Effect(t, All) else Effect(t, TemplatesKey))
    case SubmitEdit(editing, edit) => CommitIf(s, SubmitEditor(s, editing, edit))
    case DeleteEventButton(k) => Effect(DeleteEvent(s, k), All)
    case DropOnEvent(k, data) =>
      (match data
       case StaffRef(id) => CommitIf(s, AddStaffToEvent(s, k, id))
       case _ => Effect(s, Nothing))
    case ClickStaffChip(k, staffId) => Effect(RemoveStaffChip(s, k, staffId), All)
    case _ => Effect(s, Nothing)
  }

  /** The mouse handlers of a drag or a resize (planner.js:631-784). */
  function HandleGesture(env: Env, s: Planner, c: Command): (e: Effect)
    requires env.Valid()
    requires c.PressEvent? || c.PressHandle? ==> c.k < |s.scheduled|
    ensures Confined(s, c, e)
    ensures !(c.ReleaseDrag? || c.ReleaseResize?) ==> e.saved.Nothing?
    ensures c.ReleaseDrag? ==> (e.saved.All? <==> s.gesture.Dragging? && Rendered(s, s.gesture.id))
    ensures c.ReleaseResize? ==> (e.saved.All? <==> s.gesture.Resizing?)
  {
    var cfg := env.cfg;
    match c
    case PressEvent(k) => Effect(StartDrag(s, cfg, env.slotH, k), Nothing)
    case MoveDrag(dx, dy) => Effect(OnDrag(s, env.slotH, env.colWidth, dx, dy), Nothing)
    case ReleaseDrag =>
      FromOutcome(if env.build.AsWritten? then EndDragAsWritten(s, cfg, env.slotH)
                  else EndDrag(s, cfg, env.slotH))
    case PressHandle(k, edge) => Effect(StartResize(s, cfg, env.slotH, k, edge), Nothing)
    case MoveResize(dy) => Effect(ResizeMove(s, cfg, env.slotH, dy), Nothing)
    case ReleaseResize => FromOutcome(EndResize(s))
    case _ => Effect(s, Nothing)
  }

  /** The handler of `c` on working set `s`. */
  function Handle(env: Env, s: Planner, c: Command): (e: Effect)
    requires env.Valid() && Enabled(env, s, c)
    ensures Confined(s, c, e)
    ensures c.DeletePatientButton? ==> e == HandleLists(s, c)
  {
    match c
    case PressEvent(_) => HandleGesture(env, s, c)
    case MoveDrag(_, _) => HandleGesture(env, s, c)
    case ReleaseDrag => HandleGesture(env, s, c)
    case PressHandle(_, _) => HandleGesture(env, s, c)
    case MoveResize(_) => HandleGesture(env, s, c)
    case ReleaseResize => HandleGesture(env, s, c)
    case DropOnCell(_, _, _, _) => HandleEvents(env.cfg, env.build, s, c)
    case SubmitNewEvent(_, _, _) => HandleEvents(env.cfg, env.build, s, c)
    case SubmitEdit(_, _) => HandleEvents(env.cfg, env.build, s, c)
    case DeleteEventButton(_) => HandleEvents(env.cfg, env.build, s, c)
    case DropOnEvent(_, _) => HandleEvents(env.cfg, env.build, s, c)
    case ClickStaffChip(_, _) => HandleEvents(env.cfg, env.build, s, c)
    case _ => HandleLists(s, c)
  }

  /** Carrying out a handler's saves, and the reload that follows a full
      save: the page always shows the handler's working set. */
  function Apply(st: Storage, e: Effect): (r: App)
    ensures r.view == e.next
    ensures e.saved.Nothing? ==> r.store == st
    ensures e.saved.PatientsKey? ==> r.store == SavePatients(st, e.next.date, e.next.patients)
    ensures e.saved.StaffKey? ==> r.store == SaveStaff(st, e.next.staff)
    ensures e.saved.TemplatesKey? ==> r.store == SaveTemplates(st, e.next.templates)
    ensures e.saved.All? ==> r.store == SaveAll(st, e.next)
    ensures e.saved.AllTwice? && e.saved.first.date == e.next.date ==> r.store == SaveAll(st, e.next)
  {
    match e.saved
    case Nothing => App(e.next, st)
    case PatientsKey => App(e.next, SavePatients(st, e.next.date, e.next.patients))
    case StaffKey => App(e.next, SaveStaff(st, e.next.staff))
    case TemplatesKey => App(e.next, SaveTemplates(st, e.next.templates))
    case All => Commit(st, e.next)
    case AllTwice(first) =>
      SecondSaveWins(st, first, e.next);
      Commit(SaveAll(st, first), e.next)
  }

  /** Store.SaveAllTwice, for two working sets not known to share a date. */
  lemma SecondSaveWins(st: Storage, s1: Planner, s2: Planner)
    ensures s1.date == s2.date ==> SaveAll(SaveAll(st, s1), s2) == SaveAll(st, s2)
  {
    if s1.date == s2.date {
      SaveAllTwice(st, s1, s2);
    }
  }

  /** A user action: moving to another date, or a command on the current one. */
  datatype Action = GoTo(day: int) | PrevDay | NextDay | Do(c: Command)

  predicate CanDo(env: Env, a: App, act: Action)
    requires env.Valid()
  {
    act.Do? ==> Enabled(env, a.view, act.c)
  }

  function Step(env: Env, a: App, act: Action): (r: App)
    requires env.Valid() && CanDo(env, a, act)
    ensures act.Do? ==> r.view.date == a.view.date
    ensures act.GoTo? ==> r == Navigate(env, a, act.day)
    ensures act.PrevDay? ==> r == Navigate(env, a, a.view.date - 1)
    ensures act.NextDay? ==> r == Navigate(env, a, a.view.date + 1)
  {
    match act
    case GoTo(day) => Navigate(env, a, day)
    case PrevDay => Navigate(env, a, a.view.date - 1)
    case NextDay => Navigate(env, a, a.view.date + 1)
    case Do(c) => Apply(a.store, Handle(env, a.view, c))
  }

  // ---------- properties of whole steps ----------

  /** No action changes what another date loads: the date-partitioned keys
      are only ever written at the working set's date. */
  lemma StepIsolation(env: Env, a: App, act: Action, d: int)
    requires env.Valid() && CanDo(env, a, act) && d != a.view.date
    ensures var r := Step(env, a, act);
            && LoadAllForDate(r.store, d).patients == LoadAllForDate(a.store, d).patients
            && LoadAllForDate(r.store, d).scheduled == LoadAllForDate(a.store, d).scheduled
  {
    if act.Do? {
      var e := Handle(env, a.view, act.c);
      match e.saved
      case AllTwice(first) =>
        SaveIsolation(a.store, first, d);
        SaveIsolation(SaveAll(a.store, first), e.next, d);
      case All =>
        SaveIsolation(a.store, e.next, d);
      case _ =>
    }
  }

  /** Every action but a resize move leaves the working set agreeing with
      storage: handlers that write only one key change only its list, and
      every other handler either changes no list or saves and reloads. */
  lemma StepKeepsSync(env: Env, a: App, act: Action)
    requires env.Valid() && CanDo(env, a, act) && Synced(a)
    requires !(act.Do? && act.c.MoveResize?)
    ensures Synced(Step(env, a, act))
  {
    if act.Do? {
      var e := Handle(env, a.view, act.c);
      var r := Apply(a.store, e);
      match e.saved
      case Nothing =>
        assert SameLists(a.view, e.next);
      case PatientsKey =>
        assert LoadAllForDate(r.store, e.next.date).patients == e.next.patients;
      case StaffKey =>
      case TemplatesKey =>
      case All =>
      case AllTwice(_) =>
    }
  }

  /** Releasing the mouse after a resize brings storage back in line with
      the working set the resize moves changed. */
  lemma ReleaseResizeResyncs(env: Env, a: App)
    requires env.Valid() && a.view.gesture.Resizing?
    ensures var r := Step(env, a, Do(ReleaseResize));
            && Synced(r) && r.view.gesture == Idle
            && r.view == a.view.(gesture := Idle)
  {
  }

  /** No date holds more patients than the patient form accepts: neither in
      the working set nor in storage. */
  ghost predicate WithinCap(a: App) {
    && |a.view.patients| <= PatientCap
    && forall d :: |LoadAllForDate(a.store, d).patients| <= PatientCap
  }

  /** Every action keeps every date within the patient cap. */
  lemma StepKeepsCap(env: Env, a: App, act: Action)
    requires env.Valid() && CanDo(env, a, act) && WithinCap(a)
    ensures WithinCap(Step(env, a, act))
  {
    var r := Step(env, a, act);
    if act.Do? {
      var e := Handle(env, a.view, act.c);
      assert r == Apply(a.store, e);
      assert |e.next.patients| <= PatientCap;
      forall d
        ensures |LoadAllForDate(r.store, d).patients| <= PatientCap
      {
        if d != a.view.date {
          StepIsolation(env, a, act, d);
          assert |LoadAllForDate(a.store, d).patients| <= PatientCap;
        } else if e.saved.Nothing? || e.saved.StaffKey? || e.saved.TemplatesKey? {
          assert r.store.patients == a.store.patients;
        } else if e.saved.PatientsKey? {
          assert LoadAllForDate(r.store, d).patients == e.next.patients;
        } else {
          LoadAfterSave(a.store, e.next);
          assert LoadAllForDate(r.store, d).patients == e.next.patients;
        }
      }
    } else {
      assert |LoadAllForDate(a.store, r.view.date).patients| <= PatientCap;
    }
  }

  /** With a non-empty window the working set's date never leaves it. */
  lemma StepKeepsWindow(env: Env, a: App, act: Action)
    requires env.Valid() && CanDo(env, a, act) && env.WindowNonEmpty()
    requires env.InWindow(a.view.date)
    ensures env.InWindow(Step(env, a, act).view.date)
  {
  }

  /** Deleting a patient saves twice, and the second save of the same date
      overwrites the first completely: the result is one save of the final
      working set. */
  lemma DeletePatientSavesOnce(env: Env, a: App, idx: nat)
    requires env.Valid() && idx < |a.view.patients|
    ensures Step(env, a, Do(DeletePatientButton(idx))) == Commit(a.store, DeletePatient(a.view, idx))
  {
  }
}
