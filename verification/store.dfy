/** Date-partitioned persistence over localStorage (planner.js:4-8, 23-33,
    52-82, 846-848, 863, 921). Each of the four keys holds a JSON blob;
    `JSON.stringify` followed by `JSON.parse` gives back the records the
    planner writes, so a slot holds the decoded value directly. */
module Store {
  import opened Entities

  /** What `loadLS` can find under a key: nothing usable (no item, or JSON
      whose value is falsy, such as `null`), text that does not parse, or a
      parsed value. */
  datatype Slot<T> = Missing | Unparsable | Parsed(value: T)

  /** The four storage keys: "planner_patients" (day -> patients),
      "planner_staff", "planner_events" (templates) and "planner_schedule"
      (day -> scheduled events). */
  datatype Storage = Storage(
    patients: Slot<map<int, seq<Patient>>>,
    staff: Slot<seq<Staff>>,
    templates: Slot<seq<Template>>,
    schedule: Slot<map<int, seq<Scheduled>>>)

  /** `loadLS(key, fallback)`: a missing item, a falsy value and a parse
      error all fall back. */
  function LoadLS<T>(slot: Slot<T>, fallback: T): (r: T)
    ensures slot.Parsed? ==> r == slot.value
    ensures !slot.Parsed? ==> r == fallback
  {
    match slot
    case Parsed(v) => v
    case _ => fallback
  }

  /** `all[day] || []`: the entry of one day, empty when absent. */
  function DayEntry<T>(m: map<int, seq<T>>, day: int): (r: seq<T>)
    ensures day !in m ==> r == []
    ensures day in m ==> r == m[day]
  {
    if day in m then m[day] else []
  }

  /** What a load finds for one day in a date-partitioned slot. */
  function LoadDay<T>(slot: Slot<map<int, seq<T>>>, day: int): seq<T> {
    DayEntry(LoadLS(slot, map[]), day)
  }

  /** The read-modify-write of one day's entry (planner.js:70-72, 79-81,
      846-848): load the whole map (an empty one if it is missing or
      unreadable), replace the entry of `day`, write the map back. */
  function WriteDay<T>(slot: Slot<map<int, seq<T>>>, day: int, entries: seq<T>): (r: Slot<map<int, seq<T>>>)
    ensures r.Parsed?
    ensures LoadDay(r, day) == entries
    ensures forall d | d != day :: LoadDay(r, d) == LoadDay(slot, d)
    ensures slot.Parsed? ==> r.value.Keys == slot.value.Keys + {day}
    ensures !slot.Parsed? ==> r.value.Keys == {day}
  {
    Parsed(LoadLS(slot, map[])[day := entries])
  }

  datatype Loaded = Loaded(
    patients: seq<Patient>,
    staff: seq<Staff>,
    templates: seq<Template>,
    scheduled: seq<Scheduled>)

  /** `loadAllForDate` (planner.js:52-66). */
  function LoadAllForDate(st: Storage, day: int): (r: Loaded)
    ensures st.patients.Parsed? && day in st.patients.value ==> r.patients == st.patients.value[day]
    ensures !st.patients.Parsed? || day !in st.patients.value ==> r.patients == []
    ensures st.staff.Parsed? ==> r.staff == st.staff.value
    ensures !st.staff.Parsed? ==> r.staff == []
    ensures st.templates.Parsed? ==> r.templates == st.templates.value
    ensures !st.templates.Parsed? ==> r.templates == []
    ensures st.schedule.Parsed? && day in st.schedule.value ==> r.scheduled == st.schedule.value[day]
    ensures !st.schedule.Parsed? || day !in st.schedule.value ==> r.scheduled == []
  {
    Loaded(
      LoadDay(st.patients, day),
      LoadLS(st.staff, []),
      LoadLS(st.templates, []),
      LoadDay(st.schedule, day))
  }

  /** The patient-form save (planner.js:846-848): only the patients key. */
  function SavePatients(st: Storage, day: int, ps: seq<Patient>): Storage {
    st.(patients := WriteDay(st.patients, day, ps))
  }

  /** `saveLS(LS_STAFF, state.staff)`. */
  function SaveStaff(st: Storage, ss: seq<Staff>): Storage {
    st.(staff := Parsed(ss))
  }

  /** `saveLS(LS_EVENTS, state.events)`. */
  function SaveTemplates(st: Storage, ts: seq<Template>): Storage {
    st.(templates := Parsed(ts))
  }

  /** The schedule half of `saveAll` (planner.js:79-81). */
  function SaveSchedule(st: Storage, day: int, es: seq<Scheduled>): Storage {
    st.(schedule := WriteDay(st.schedule, day, es))
  }

  /** `saveAll` (planner.js:68-82): the working set's date entry in the two
      date-partitioned keys, and the two global lists whole. */
  function SaveAll(st: Storage, s: Planner): (r: Storage)
    ensures r.staff == Parsed(s.staff) && r.templates == Parsed(s.templates)
    ensures st.schedule.Parsed? ==> r.schedule == Parsed(st.schedule.value[s.date := s.scheduled])
    ensures st.patients.Parsed? ==> r.patients == Parsed(st.patients.value[s.date := s.patients])
  {
    var st1 := SavePatients(st, s.date, s.patients);
    var st2 := SaveStaff(st1, s.staff);
    var st3 := SaveTemplates(st2, s.templates);
    SaveSchedule(st3, s.date, s.scheduled)
  }

  /** Loading the saved date gives back exactly the lists that were saved. */
  lemma LoadAfterSave(st: Storage, s: Planner)
    ensures LoadAllForDate(SaveAll(st, s), s.date)
            == Loaded(s.patients, s.staff, s.templates, s.scheduled)
  {
  }

  /** Saving one date never changes what another date loads: the other
      entries of both date-partitioned keys are carried over. */
  lemma SaveIsolation(st: Storage, s: Planner, day: int)
    requires day != s.date
    ensures LoadAllForDate(SaveAll(st, s), day).patients == LoadAllForDate(st, day).patients
    ensures LoadAllForDate(SaveAll(st, s), day).scheduled == LoadAllForDate(st, day).scheduled
  {
  }

  /** The single-key saves of the patient, staff and template forms: the
      saved list loads back, the other three lists load as before, and the
      patients of every other date are untouched. */
  lemma SaveOneKey(st: Storage, day: int, d: int, ps: seq<Patient>, ss: seq<Staff>, ts: seq<Template>)
    ensures LoadAllForDate(SavePatients(st, day, ps), day) == LoadAllForDate(st, day).(patients := ps)
    ensures d != day ==> LoadAllForDate(SavePatients(st, day, ps), d) == LoadAllForDate(st, d)
    ensures LoadAllForDate(SaveStaff(st, ss), d) == LoadAllForDate(st, d).(staff := ss)
    ensures LoadAllForDate(SaveTemplates(st, ts), d) == LoadAllForDate(st, d).(templates := ts)
  {
  }

  /** Two saves of the same date: the second wins completely. */
  lemma SaveAllTwice(st: Storage, s1: Planner, s2: Planner)
    requires s1.date == s2.date
    ensures SaveAll(SaveAll(st, s1), s2) == SaveAll(st, s2)
  {
    var m1 := LoadLS(st.patients, map[]);
    assert m1[s1.date := s1.patients][s2.date := s2.patients] == m1[s2.date := s2.patients];
    var m2 := LoadLS(st.schedule, map[]);
    assert m2[s1.date := s1.scheduled][s2.date := s2.scheduled] == m2[s2.date := s2.scheduled];
  }
}
