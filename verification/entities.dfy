/** The planner's records (planner.js:5-21, 340-351, 842, 862, 912-919) and
    the in-memory working set for one date. */
module Entities {
  import opened Optional
  import opened Seqs

  /** A patient of one date; the list order is the column order. */
  datatype Patient = Patient(id: string, name: string)

  /** A global staff member. */
  datatype Staff = Staff(id: string, name: string, color: string)

  /** A global event template, not yet placed on the grid. */
  datatype Template = Template(
    id: string,
    title: string,
    description: string,
    color: string,
    duration: int,
    staff: seq<string>)

  /** An event placed on a date, in a patient's column, from `start` to
      `end` (both `HH:MM` texts, as stored). */
  datatype Scheduled = Scheduled(
    id: string,
    title: string,
    description: string,
    color: string,
    duration: int,
    staff: seq<string>,
    date: int,
    patientId: string,
    start: string,
    end: string)

  /** Where a dragged event element currently sits: its pixel top and the
      index of the column holding it. */
  datatype DragView = DragView(top: int, col: int)

  datatype Edge = TopEdge | BottomEdge

  /** `state.dragging` / `state.resizing` together with the values captured
      when the gesture started (planner.js:615-622, 638-645, 716-719, 729-732).
      A drag keeps whole pixels; a resize keeps the element's exact top and
      height in sub-pixels of 1/slotMinutes of a pixel. */
  datatype Gesture =
    | Idle
    | Dragging(id: string, origin: DragView, current: DragView)
    | Resizing(id: string, edge: Edge, originTop: int, originHeight: int)

  /** The working set for the selected date (`state`, planner.js:13-21);
      dates are whole day numbers, which also serve as the storage key. */
  datatype Planner = Planner(
    date: int,
    patients: seq<Patient>,
    staff: seq<Staff>,
    templates: seq<Template>,
    scheduled: seq<Scheduled>,
    gesture: Gesture)

  function PatientIds(ps: seq<Patient>): (ids: seq<string>)
    ensures |ids| == |ps| && forall i | 0 <= i < |ps| :: ids[i] == ps[i].id
  {
    seq(|ps|, i requires 0 <= i < |ps| => ps[i].id)
  }

  function StaffIds(ss: seq<Staff>): (ids: seq<string>)
    ensures |ids| == |ss| && forall i | 0 <= i < |ss| :: ids[i] == ss[i].id
  {
    seq(|ss|, i requires 0 <= i < |ss| => ss[i].id)
  }

  function TemplateIds(ts: seq<Template>): (ids: seq<string>)
    ensures |ids| == |ts| && forall i | 0 <= i < |ts| :: ids[i] == ts[i].id
  {
    seq(|ts|, i requires 0 <= i < |ts| => ts[i].id)
  }

  function EventIds(es: seq<Scheduled>): (ids: seq<string>)
    ensures |ids| == |es| && forall i | 0 <= i < |es| :: ids[i] == es[i].id
  {
    seq(|es|, i requires 0 <= i < |es| => es[i].id)
  }

  /** An event element exists on the grid for `id`: some event with that id
      has a patient column to be drawn in (planner.js:417-418). */
  predicate Rendered(s: Planner, id: string) {
    exists k | 0 <= k < |s.scheduled| :: s.scheduled[k].id == id && s.scheduled[k].patientId in PatientIds(s.patients)
  }

  /** What a gesture handler leaves behind: the next working set, and
      whether the handler wrote it to storage. */
  datatype Outcome = Outcome(next: Planner, save: bool)

  /** Only the event list differs. */
  predicate OnlyEventsChanged(s: Planner, r: Planner) {
    r == s.(scheduled := r.scheduled)
  }

  /** Event `k` may differ, every other event is as it was. */
  predicate OthersUnchanged(es: seq<Scheduled>, es': seq<Scheduled>, k: nat) {
    |es'| == |es| && forall j | 0 <= j < |es| && j != k :: es'[j] == es[j]
  }
}
