/** The time grid: configuration, slot arithmetic and the pixel geometry of
    the day column (planner.js:304, 339, 373, 422-426, 693-694). */
module Grid {
  import opened Js

  /** The planner configuration fields the core reads (`window.PLANNER_CONFIG`).
      `maxPatients` is only displayed by the source, so it is not part of it. */
  datatype Config = Config(
    startHour: int,
    endHour: int,
    slotMinutes: int,
    defaultDuration: int,
    pastDays: int,
    horizonDays: int)
  {
    /** A day the grid can draw: it is not empty and is cut into whole slots. */
    predicate Valid() {
      0 <= startHour < endHour && slotMinutes > 0 && ((endHour - startHour) * 60) % slotMinutes == 0
    }

    function DayStart(): int { startHour * 60 }

    function DayEnd(): int { endHour * 60 }

    /** `totalSlots` (planner.js:304, 687): the number of slots in the day. */
    function TotalSlots(): (n: nat)
      requires Valid()
      ensures n >= 1 && n * slotMinutes == DayEnd() - DayStart()
    {
      var len := (endHour - startHour) * 60;
      assert len == (len / slotMinutes) * slotMinutes + len % slotMinutes;
      len / slotMinutes
    }
  }

  /** Minutes since midnight at which slot `i` starts:
      `startHour * 60 + i * slotMinutes`. */
  function SlotStart(cfg: Config, i: int): int {
    cfg.DayStart() + i * cfg.slotMinutes
  }

  /** The slot a minute count falls in (the inverse of SlotStart). */
  function SlotOf(cfg: Config, m: int): int
    requires cfg.slotMinutes > 0
  {
    (m - cfg.DayStart()) / cfg.slotMinutes
  }

  /** A minute count on a slot boundary. */
  predicate Aligned(cfg: Config, m: int)
    requires cfg.slotMinutes > 0
  {
    (m - cfg.DayStart()) % cfg.slotMinutes == 0
  }

  /** Every slot of the grid lies inside the visible day, on a boundary. */
  lemma SlotStartInDay(cfg: Config, i: int)
    requires cfg.Valid() && 0 <= i < cfg.TotalSlots()
    ensures cfg.DayStart() <= SlotStart(cfg, i)
    ensures SlotStart(cfg, i) + cfg.slotMinutes <= cfg.DayEnd()
    ensures Aligned(cfg, SlotStart(cfg, i))
  {
    MulMono(cfg.slotMinutes, 0, i);
    MulMono(cfg.slotMinutes, i + 1, cfg.TotalSlots());
    SlotRoundTrip(cfg, i);
  }

  /** Slot index to time and back is the identity, for every index. */
  lemma SlotRoundTrip(cfg: Config, i: int)
    requires cfg.slotMinutes > 0
    ensures SlotOf(cfg, SlotStart(cfg, i)) == i
    ensures Aligned(cfg, SlotStart(cfg, i))
  {
    var sm := cfg.slotMinutes;
    assert SlotStart(cfg, i) - cfg.DayStart() == sm * i;
    DivUnique(sm * i, sm, i);
    assert sm * i == sm * ((sm * i) / sm) + (sm * i) % sm;
  }

  /** Time to slot and back is the identity exactly on slot boundaries. */
  lemma SlotOfAligned(cfg: Config, m: int)
    requires cfg.slotMinutes > 0
    ensures SlotStart(cfg, SlotOf(cfg, m)) == m <==> Aligned(cfg, m)
  {
    var d := m - cfg.DayStart();
    assert d == cfg.slotMinutes * (d / cfg.slotMinutes) + d % cfg.slotMinutes;
  }

  /** The pixel top of a minute count in a column whose slots are `slotH`
      pixels tall (planner.js:425): `(m - startHour*60) / slotMinutes * slotH`. */
  function TopOf(cfg: Config, slotH: int, m: int): (top: int)
    requires cfg.slotMinutes > 0
    ensures top * cfg.slotMinutes <= (m - cfg.DayStart()) * slotH < top * cfg.slotMinutes + cfg.slotMinutes
  {
    ((m - cfg.DayStart()) * slotH) / cfg.slotMinutes
  }

  /** `Math.round(top / slotH)` (planner.js:693): the nearest slot boundary. */
  function PixelToSlot(top: int, slotH: int): (i: int)
    requires slotH > 0
    ensures -slotH <= 2 * (top - i * slotH) < slotH
  {
    RoundDiv(top, slotH)
  }

  /** `Math.round(top / slotH) * slotH` (planner.js:661, 752, 759): a pixel
      offset moved to the nearest multiple of the slot height. */
  function Snap(top: int, slotH: int): (r: int)
    requires slotH > 0
    ensures r % slotH == 0
    ensures -slotH < 2 * (r - top) <= slotH
  {
    var i := PixelToSlot(top, slotH);
    assert (i * slotH) % slotH == 0 by { DivUnique(i * slotH, slotH, i); }
    i * slotH
  }

  /** Snapping leaves multiples of the slot height where they are. */
  lemma SnapAligned(top: int, slotH: int)
    requires slotH > 0 && top % slotH == 0
    ensures Snap(top, slotH) == top
  {
    assert top == (top / slotH) * slotH;
    RoundDivExact(top / slotH, slotH);
  }

  /** Slot to pixel to slot is the identity: the top at which slot `i` is
      drawn rounds back to `i`. */
  lemma PixelRoundTrip(cfg: Config, slotH: int, i: int)
    requires cfg.slotMinutes > 0 && slotH > 0
    ensures TopOf(cfg, slotH, SlotStart(cfg, i)) == i * slotH
    ensures PixelToSlot(TopOf(cfg, slotH, SlotStart(cfg, i)), slotH) == i
  {
    var sm := cfg.slotMinutes;
    assert (SlotStart(cfg, i) - cfg.DayStart()) * slotH == sm * (i * slotH);
    DivUnique(sm * (i * slotH), sm, i * slotH);
    RoundDivExact(i, slotH);
  }
}
