/** The sidebar's lists: patients of the date, global staff, global
    templates, and the cascades their deletions run over the scheduled
    events (planner.js:99-125, 136-197, 221-235, 831-868). */
module Registry {
  import opened Optional
  import opened Seqs
  import opened Js
  import opened Entities

  /** The number of patients the patient form accepts for one date; the
      limit is written into the handler, independently of the configured
      `maxPatients` the sidebar displays. */
  const PatientCap: nat := 15

  /** Every event sits in the column of a patient of the date. */
  predicate NoOrphans(s: Planner) {
    forall k | 0 <= k < |s.scheduled| :: s.scheduled[k].patientId in PatientIds(s.patients)
  }

  /** Every staff id on an event names a staff member. */
  predicate StaffRefsValid(s: Planner) {
    forall k, x | 0 <= k < |s.scheduled| && x in s.scheduled[k].staff :: x in StaffIds(s.staff)
  }

  // ---------- patients ----------

  /** Submitting the patient form (planner.js:831-854): a blank name and a
      date that already has 15 patients are refused; otherwise a patient
      with the trimmed name is appended. */
  function AddPatient(s: Planner, name: string, freshId: string): (r: Option<Planner>)
    ensures r.None? <==> Trim(name) == [] || |s.patients| >= PatientCap
    ensures r.Some? ==>
      && r.value == s.(patients := r.value.patients)
      && |r.value.patients| == |s.patients| + 1 <= PatientCap
      && r.value.patients[..|s.patients|] == s.patients
      && r.value.patients[|s.patients|] == Patient(freshId, Trim(name))
      && Trim(name) != []
  {
    var trimmed := Trim(name);
    if trimmed == [] || |s.patients| >= PatientCap then None
    else
      var ps := s.patients + [Patient(freshId, trimmed)];
      assert ps[..|s.patients|] == s.patients;
      Some(s.(patients := ps))
  }

  /** No sequence of patient-form submissions takes a date past the cap. */
  lemma AddPatientKeepsCap(s: Planner, name: string, freshId: string)
    requires |s.patients| <= PatientCap
    ensures var r := AddPatient(s, name, freshId);
            (r.Some? ==> |r.value.patients| <= PatientCap)
            && (r.None? ==> Trim(name) == [] || |s.patients| == PatientCap)
  {
  }

  /** Editing the name field of patient `idx` (planner.js:108-113): the
      trimmed text replaces the name, even when it is empty. */
  function RenamePatient(s: Planner, idx: nat, text: string): (r: Planner)
    requires idx < |s.patients|
    ensures r == s.(patients := r.patients)
    ensures |r.patients| == |s.patients|
    ensures r.patients[idx] == Patient(s.patients[idx].id, Trim(text))
    ensures forall j | 0 <= j < |s.patients| && j != idx :: r.patients[j] == s.patients[j]
    ensures PatientIds(r.patients) == PatientIds(s.patients)
  {
    var ps := s.patients[idx := s.patients[idx].(name := Trim(text))];
    assert PatientIds(ps) == PatientIds(s.patients);
    s.(patients := ps)
  }

  /** The events that survive deleting patient `id`: those outside its column. */
  function OutsideColumn(id: string): Scheduled -> bool {
    (e: Scheduled) => e.patientId != id
  }

  /** The staff entries that survive deleting staff id `id`. */
  function OtherStaff(id: string): Staff -> bool {
    (m: Staff) => m.id != id
  }

  /** The templates that survive deleting template id `id`. */
  function OtherTemplate(id: string): Template -> bool {
    (t: Template) => t.id != id
  }

  /** The ✕ of patient `idx` (planner.js:118-125): the patient leaves the
      list, and every event in a column with that patient's id goes with
      it. */
  function DeletePatient(s: Planner, idx: nat): (r: Planner)
    requires idx < |s.patients|
    ensures r == s.(patients := r.patients, scheduled := r.scheduled)
    ensures r.patients == s.patients[..idx] + s.patients[idx + 1..]
    ensures r.scheduled == Filter(s.scheduled, OutsideColumn(s.patients[idx].id))
    ensures forall e | e in r.scheduled :: e in s.scheduled && e.patientId != s.patients[idx].id
    ensures forall e | e in s.scheduled && e.patientId != s.patients[idx].id :: e in r.scheduled
  {
    var id := s.patients[idx].id;
    var keep := OutsideColumn(id);
    var es := Filter(s.scheduled, keep);
    forall e | e in s.scheduled
      ensures e in es <==> keep(e)
    {
      FilterMembership(s.scheduled, keep, e);
    }
    forall e | e in es
      ensures e in s.scheduled
    {
      FilterMembership(s.scheduled, keep, e);
    }
    s.(patients := s.patients[..idx] + s.patients[idx + 1..], scheduled := es)
  }

  /** The deletion cascade leaves no event without a column: if every event
      had a patient before, every remaining one still has one, even when
      patient ids repeat. */
  lemma {:induction false} DeletePatientNoOrphans(s: Planner, idx: nat)
    requires idx < |s.patients| && NoOrphans(s)
    ensures NoOrphans(DeletePatient(s, idx))
  {
    var r := DeletePatient(s, idx);
    forall k | 0 <= k < |r.scheduled|
      ensures r.scheduled[k].patientId in PatientIds(r.patients)
    {
      var e := r.scheduled[k];
      assert e in r.scheduled;
      var i :| 0 <= i < |s.scheduled| && s.scheduled[i] == e;
      var ids := PatientIds(s.patients);
      var j :| 0 <= j < |ids| && ids[j] == e.patientId;
      assert j != idx;
      if j < idx {
        assert r.patients[j] == s.patients[j];
        assert PatientIds(r.patients)[j] == e.patientId;
      } else {
        assert r.patients[j - 1] == s.patients[j];
        assert PatientIds(r.patients)[j - 1] == e.patientId;
      }
    }
  }

  // ---------- staff ----------

  /** Submitting the staff form (planner.js:856-868): a blank name is
      refused; otherwise a member with the trimmed name and the picked
      color is appended. */
  function AddStaff(s: Planner, name: string, color: string, freshId: string): (r: Option<Planner>)
    ensures r.None? <==> Trim(name) == []
    ensures r.Some? ==>
      && r.value == s.(staff := r.value.staff)
      && |r.value.staff| == |s.staff| + 1
      && r.value.staff[..|s.staff|] == s.staff
      && r.value.staff[|s.staff|] == Staff(freshId, Trim(name), color)
  {
    var trimmed := Trim(name);
    if trimmed == [] then None
    else
      var ss := s.staff + [Staff(freshId, trimmed, color)];
      assert ss[..|s.staff|] == s.staff;
      Some(s.(staff := ss))
  }

  /** Renaming staff member `idx` in place (planner.js:155-159): a text that
      trims to nothing keeps the old name. */
  function RenameStaff(s: Planner, idx: nat, text: string): (r: Planner)
    requires idx < |s.staff|
    ensures r == s.(staff := r.staff)
    ensures |r.staff| == |s.staff|
    ensures r.staff[idx] == s.staff[idx].(name := r.staff[idx].name)
    ensures Trim(text) != [] ==> r.staff[idx].name == Trim(text)
    ensures Trim(text) == [] ==> r.staff[idx].name == s.staff[idx].name
    ensures forall j | 0 <= j < |s.staff| && j != idx :: r.staff[j] == s.staff[j]
  {
    s.(staff := s.staff[idx := s.staff[idx].(name := OrElseText(Trim(text), s.staff[idx].name))])
  }

  /** Every event of the date drops staff id `sid` from its staff list,
      keeping the rest in order (planner.js:177, 191). */
  function PruneStaff(es: seq<Scheduled>, sid: string): (r: seq<Scheduled>)
    ensures |r| == |es|
    ensures forall k | 0 <= k < |es| :: r[k] == es[k].(staff := r[k].staff)
    ensures forall k | 0 <= k < |es| :: sid !in r[k].staff
    ensures forall k, x | 0 <= k < |es| && x in es[k].staff && x != sid :: x in r[k].staff
    ensures forall k, x | 0 <= k < |es| && x in r[k].staff :: x in es[k].staff
  {
    seq(|es|, k requires 0 <= k < |es| => es[k].(staff := RemoveAll(es[k].staff, sid)))
  }

  /** Pruning an id no event carries changes nothing. */
  lemma {:induction false} PruneAbsent(es: seq<Scheduled>, sid: string)
    requires forall k | 0 <= k < |es| :: sid !in es[k].staff
    ensures PruneStaff(es, sid) == es
  {
    var r := PruneStaff(es, sid);
    forall k | 0 <= k < |es|
      ensures r[k] == es[k]
    {
      RemoveAbsent(es[k].staff, sid);
    }
  }

  /** "❌ All Events" of staff member `idx` (planner.js:175-181): the member
      leaves every event of the date and stays in the staff list. */
  function RemoveStaffFromEvents(s: Planner, idx: nat): (r: Planner)
    requires idx < |s.staff|
    ensures OnlyEventsChanged(s, r)
    ensures forall k | 0 <= k < |r.scheduled| :: s.staff[idx].id !in r.scheduled[k].staff
    ensures EventIds(r.scheduled) == EventIds(s.scheduled)
  {
    var es := PruneStaff(s.scheduled, s.staff[idx].id);
    assert EventIds(es) == EventIds(s.scheduled);
    s.(scheduled := es)
  }

  /** "❌ Delete" of staff member `idx` (planner.js:188-197): the member
      leaves every event of the date, then every staff entry with its id
      leaves the staff list. */
  function DeleteStaff(s: Planner, idx: nat): (r: Planner)
    requires idx < |s.staff|
    ensures r == s.(staff := r.staff, scheduled := r.scheduled)
    ensures r.scheduled == RemoveStaffFromEvents(s, idx).scheduled
    ensures r.staff == Filter(s.staff, OtherStaff(s.staff[idx].id))
    ensures s.staff[idx].id !in StaffIds(r.staff)
    ensures forall m | m in r.staff :: m in s.staff
    ensures forall m | m in s.staff && m.id != s.staff[idx].id :: m in r.staff
  {
    var id := s.staff[idx].id;
    var keep := OtherStaff(id);
    var ss := Filter(s.staff, keep);
    forall m | m in s.staff
      ensures m in ss <==> keep(m)
    {
      FilterMembership(s.staff, keep, m);
    }
    forall m | m in ss
      ensures m in s.staff
    {
      FilterMembership(s.staff, keep, m);
    }
    s.(staff := ss, scheduled := PruneStaff(s.scheduled, id))
  }

  /** Deleting a staff member keeps every event's staff list pointing at
      existing members. */
  lemma {:induction false} DeleteStaffKeepsRefs(s: Planner, idx: nat)
    requires idx < |s.staff| && StaffRefsValid(s)
    ensures StaffRefsValid(DeleteStaff(s, idx))
  {
    var r := DeleteStaff(s, idx);
    var id := s.staff[idx].id;
    forall k, x | 0 <= k < |r.scheduled| && x in r.scheduled[k].staff
      ensures x in StaffIds(r.staff)
    {
      assert x in s.scheduled[k].staff && x != id;
      var ids := StaffIds(s.staff);
      assert x in ids;
      var j :| 0 <= j < |ids| && ids[j] == x;
      assert s.staff[j] in r.staff;
      var i :| 0 <= i < |r.staff| && r.staff[i] == s.staff[j];
      assert StaffIds(r.staff)[i] == x;
    }
  }

  // ---------- templates ----------

  /** The ✕ of a template (planner.js:230-235): every template with that id
      leaves the list; events already made from it stay on the grid. */
  function DeleteTemplate(s: Planner, templateId: string): (r: Planner)
    ensures r == s.(templates := r.templates)
    ensures r.templates == Filter(s.templates, OtherTemplate(templateId))
    ensures templateId !in TemplateIds(r.templates)
    ensures forall t | t in r.templates :: t in s.templates
    ensures forall t | t in s.templates && t.id != templateId :: t in r.templates
  {
    var keep := OtherTemplate(templateId);
    var ts := Filter(s.templates, keep);
    forall t | t in s.templates
      ensures t in ts <==> keep(t)
    {
      FilterMembership(s.templates, keep, t);
    }
    forall t | t in ts
      ensures t in s.templates
    {
      FilterMembership(s.templates, keep, t);
    }
    s.(templates := ts)
  }

  /** Deleting a template twice is deleting it once. */
  lemma DeleteTemplateIdempotent(s: Planner, templateId: string)
    ensures DeleteTemplate(DeleteTemplate(s, templateId), templateId) == DeleteTemplate(s, templateId)
  {
    FilterKeepsAll(DeleteTemplate(s, templateId).templates, OtherTemplate(templateId));
  }

  /** Deleting changes the page exactly when a template has that id. */
  lemma DeleteTemplateAbsent(s: Planner, templateId: string)
    ensures DeleteTemplate(s, templateId) == s <==> templateId !in TemplateIds(s.templates)
  {
    if templateId !in TemplateIds(s.templates) {
      forall i | 0 <= i < |s.templates|
        ensures OtherTemplate(templateId)(s.templates[i])
      {
        assert TemplateIds(s.templates)[i] == s.templates[i].id;
      }
      FilterKeepsAll(s.templates, OtherTemplate(templateId));
    }
  }
}
