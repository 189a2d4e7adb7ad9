/**
 * Monitor driver (src/drv_monitor.c): debug output pins numbered 1..MONITOR_NUMBER,
 * each driven active-high or active-low as the board says.
 */
module Monitor {
  import opened Events

  /** Logical state of a monitor (MONITOR_status_t). */
  datatype Status = Off | On

  /** `monitor_id_valido`: ids run from 1 to the number of monitors; with no monitors none is valid. */
  function IdValid(id: u8, count: u8): (v: bool)
    ensures v ==> id - 1 < count
    ensures id == 0 ==> !v
  {
    count > 0 && 1 <= id <= count
  }

  /** `hw_level_from_status`: the pin level that shows status `st`. */
  function HwLevelFromStatus(st: Status, activeHigh: bool, count: u8): (level: u32)
    ensures level <= 1
    ensures count > 0 ==> (level == 1 <==> (st.On? <==> activeHigh))
  {
    if count == 0 then 0
    else if activeHigh then (if st == On then 1 else 0)
    else (if st == Off then 1 else 0)
  }

  /** `status_from_hw_level`: the status a pin level shows; any nonzero level reads as high. */
  function StatusFromHwLevel(level: u32, activeHigh: bool, count: u8): (st: Status)
    ensures count > 0 ==> (st.On? <==> (level != 0 <==> activeHigh))
    ensures count == 0 ==> st == Off
  {
    if count == 0 then Off
    else
      var on := if activeHigh then level != 0 else level == 0;
      if on then On else Off
  }

  /** For either active-state setting, reading back the level written for a status gives that status,
      and writing the status read from a 0/1 level gives that level back. */
  lemma {:induction false} LevelRoundTrip(st: Status, level: u32, activeHigh: bool, count: u8)
    requires count > 0
    ensures StatusFromHwLevel(HwLevelFromStatus(st, activeHigh, count), activeHigh, count) == st
    ensures level <= 1 ==> HwLevelFromStatus(StatusFromHwLevel(level, activeHigh, count), activeHigh, count) == level
  {
  }

  /** The monitor pins; `levels[id - 1]` is the level last written to monitor `id`. */
  class Monitors {
    const count: u8
    const activeHigh: bool
    const levels: array<u32>

    ghost predicate Valid() reads this { levels.Length == count as int }

    /** The status monitor `id` shows, read back from its pin. */
    function StatusOf(id: u8): Status
      reads this, levels
      requires Valid() && IdValid(id, count)
    {
      StatusFromHwLevel(levels[id - 1], activeHigh, count)
    }

    /** The board's MONITOR_NUMBER and MONITOR_ACTIVE_STATE; the pins start at an unknown level. */
    constructor (count: u8, activeHigh: bool)
      requires count < 255  // `drv_monitor_iniciar`'s uint8 loop counter would never pass 255
      ensures Valid() && fresh(levels)
      ensures this.count == count && this.activeHigh == activeHigh
    {
      this.count := count;
      this.activeHigh := activeHigh;
      levels := new u32[count];
    }

    /** `drv_monitor_iniciar`: switches every monitor off and returns how many there are. */
    method Iniciar() returns (n: nat)
      requires Valid()
      modifies levels
      ensures n == count as int
      ensures forall id: u8 :: IdValid(id, count) ==> StatusOf(id) == Off
    {
      var i: int := 1;
      while i <= count as int
        invariant 1 <= i <= count as int + 1
        invariant forall j :: 0 <= j < i - 1 ==> levels[j] == HwLevelFromStatus(Off, activeHigh, count)
      {
        levels[i - 1] := HwLevelFromStatus(Off, activeHigh, count);
        i := i + 1;
      }
      forall id: u8 | IdValid(id, count)
        ensures StatusOf(id) == Off
      {
        LevelRoundTrip(Off, 0, activeHigh, count);
      }
      n := count as int;
    }

    /** `drv_monitor_establecer`: 0 and no write for an invalid id, else writes the level and returns 1. */
    method Establecer(id: u8, st: Status) returns (ok: int)
      requires Valid()
      modifies levels
      ensures ok == (if IdValid(id, count) then 1 else 0)
      ensures ok == 1 ==> levels[id - 1] == HwLevelFromStatus(st, activeHigh, count) && StatusOf(id) == st
      ensures forall j :: 0 <= j < levels.Length && j != id as int - 1 ==> levels[j] == old(levels[j])
      ensures ok == 0 ==> levels[..] == old(levels[..])
    {
      if !IdValid(id, count) {
        return 0;
      }
      levels[id - 1] := HwLevelFromStatus(st, activeHigh, count);
      LevelRoundTrip(st, 0, activeHigh, count);
      ok := 1;
    }

    /** `drv_monitor_estado`: 0 for an invalid id or a missing output pointer; otherwise 1 and the
        status read back from the pin. */
    method Estado(id: u8, hasOut: bool) returns (ok: int, st: Status)
      requires Valid()
      ensures ok == (if IdValid(id, count) && hasOut then 1 else 0)
      ensures ok == 1 ==> st == StatusOf(id)
    {
      if !IdValid(id, count) || !hasOut {
        return 0, Off;
      }
      st := StatusFromHwLevel(levels[id - 1], activeHigh, count);
      ok := 1;
    }

    /** `drv_monitor_marcar`: switches a valid monitor on; nothing for an invalid id. */
    method Marcar(id: u8)
      requires Valid()
      modifies levels
      ensures IdValid(id, count) ==> levels[id - 1] == HwLevelFromStatus(On, activeHigh, count) && StatusOf(id) == On
      ensures forall j :: 0 <= j < levels.Length && j != id as int - 1 ==> levels[j] == old(levels[j])
      ensures !IdValid(id, count) ==> levels[..] == old(levels[..])
    {
      if !IdValid(id, count) {
        return;
      }
      var _ := Establecer(id, On);
    }

    /** `drv_monitor_desmarcar`: switches a valid monitor off; nothing for an invalid id. */
    method Desmarcar(id: u8)
      requires Valid()
      modifies levels
      ensures IdValid(id, count) ==> levels[id - 1] == HwLevelFromStatus(Off, activeHigh, count) && StatusOf(id) == Off
      ensures forall j :: 0 <= j < levels.Length && j != id as int - 1 ==> levels[j] == old(levels[j])
      ensures !IdValid(id, count) ==> levels[..] == old(levels[..])
    {
      if !IdValid(id, count) {
        return;
      }
      var _ := Establecer(id, Off);
    }
  }

  /** Marking is idempotent: a second `Marcar` of the same id leaves every pin as the first left it. */
  method MarcarTwice(m: Monitors, id: u8) returns (ghost afterFirst: seq<u32>)
    requires m.Valid()
    modifies m.levels
    ensures m.levels[..] == afterFirst
  {
    m.Marcar(id);
    afterFirst := m.levels[..];
    m.Marcar(id);
  }
}
