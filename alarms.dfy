/**
 * Software alarm service (src/svc_alarmas.c): a pool of 8 countdown timers keyed by
 * (event kind, aux). Each tick of the configured tick event counts every active alarm down;
 * an alarm that reaches zero hands its (kind, aux) to the enqueue callback and then reloads
 * (periodic) or goes inactive (one-shot).
 *
 * An alarm word packs the delay in bits 0-23 (MASK_RETARDO), seven user flag bits in bits
 * 24-30 (MASK_FLAGS) and the periodic flag in bit 31 (MASK_PERIODICA). The fields are disjoint,
 * so the source's `&`, `|` and `<<` on them are written here as the equivalent remainder,
 * quotient and sum on the word's value.
 */
module Alarms {
  import opened Events
  import Subs = Subscriptions
  import Timing

  /** svc_ALARMAS_MAX. */
  const ALARMS_MAX: nat := 8

  /** tiempo_periodico: the hardware tick period requested at start-up, in ms. */
  const TICK_PERIOD_MS: u32 := 1

  /** MASK_RETARDO + 1: the delay occupies the low 24 bits. */
  const DELAY_RANGE: nat := 0x100_0000

  /** The seven flag bits of MASK_FLAGS, counted from bit 24. */
  const FLAGS_RANGE: nat := 0x80

  /** MASK_PERIODICA: bit 31. */
  const PERIODIC_BIT: nat := 0x8000_0000

  /** `decodificar_retardo`: `flags & MASK_RETARDO`. */
  function DecodeDelay(w: u32): (d: u32)
    ensures d < DELAY_RANGE
  {
    w % DELAY_RANGE
  }

  /** `decodificar_periodica`: `(flags & MASK_PERIODICA) != 0`. */
  function DecodePeriodic(w: u32): (p: bool)
    ensures p <==> (w / PERIODIC_BIT) % 2 == 1
  {
    w >= PERIODIC_BIT
  }

  /** Bits 24-30 of a word, `(flags & MASK_FLAGS) >> 24`. */
  function DecodeFlags(w: u32): (f: nat)
    ensures f < FLAGS_RANGE
  {
    (w / DELAY_RANGE) % FLAGS_RANGE
  }

  /** `svc_alarma_codificar`: the delay masked to 24 bits, the flags shifted into bits 24-30 and
      masked to 7 bits, and bit 31 when periodic. */
  function Codificar(periodic: bool, delayMs: u32, flags: u8): (w: u32)
    ensures DecodePeriodic(w) == periodic
    ensures w % DELAY_RANGE == delayMs % DELAY_RANGE
  {
    delayMs % DELAY_RANGE + (flags % FLAGS_RANGE) * DELAY_RANGE + (if periodic then PERIODIC_BIT else 0)
  }

  /** Decoding an encoded word gives back the delay modulo 2^24, the periodic flag, and the
      flags' low seven bits. */
  lemma {:induction false} CodificarRoundTrip(periodic: bool, delayMs: u32, flags: u8)
    ensures DecodeDelay(Codificar(periodic, delayMs, flags)) == delayMs % DELAY_RANGE
    ensures DecodePeriodic(Codificar(periodic, delayMs, flags)) == periodic
    ensures DecodeFlags(Codificar(periodic, delayMs, flags)) == flags % FLAGS_RANGE
  {
    var d, f := delayMs % DELAY_RANGE, flags % FLAGS_RANGE;
    var w := Codificar(periodic, delayMs, flags);
    var hi := f + (if periodic then FLAGS_RANGE else 0);
    assert w == d + hi * DELAY_RANGE;
    assert w / DELAY_RANGE == hi;
  }

  /** Every word is the encoding of its own decoded fields. */
  lemma {:induction false} WordRoundTrip(w: u32)
    ensures Codificar(DecodePeriodic(w), DecodeDelay(w), DecodeFlags(w)) == w
  {
    var q := w / DELAY_RANGE;
    assert w == DecodeDelay(w) + q * DELAY_RANGE;
    assert q == DecodeFlags(w) + (if DecodePeriodic(w) then FLAGS_RANGE else 0);
  }

  /** The encoding is the cancel word 0 exactly for a one-shot alarm whose delay is a multiple
      of 2^24 and whose flags are a multiple of 128: such a request cancels instead of arming. */
  lemma {:induction false} CodificarZeroIsCancel(periodic: bool, delayMs: u32, flags: u8)
    ensures Codificar(periodic, delayMs, flags) == 0 <==>
      !periodic && delayMs % DELAY_RANGE == 0 && flags % FLAGS_RANGE == 0
  {
  }

  /** One slot of `m_alarmas` (Alarma_t). */
  datatype Alarm = Alarm(active: bool, periodic: bool, delayMs: u32, counter: u32, kind: u32, aux: u32)

  /** The zero-initialised slot. */
  const IDLE_ALARM: Alarm := Alarm(false, false, 0, 0, 0, 0)

  /** The test in `buscar_alarma`: an active alarm with this key. */
  predicate Matches(a: Alarm, kind: u32, aux: u32)
  {
    a.active && a.kind == kind && a.aux == aux
  }

  /** No two active alarms share a key. */
  ghost predicate UniqueKeys(s: seq<Alarm>)
  {
    forall i, j :: 0 <= i < j < |s| && s[j].active ==> !Matches(s[i], s[j].kind, s[j].aux)
  }

  /** `buscar_alarma`: the first active alarm with this key. */
  function FindAlarm(s: seq<Alarm>, kind: u32, aux: u32): (r: Option<nat>)
    ensures r.Some? ==> r.value < |s| && Matches(s[r.value], kind, aux)
    ensures r.Some? ==> forall j :: 0 <= j < r.value ==> !Matches(s[j], kind, aux)
    ensures r.None? ==> forall j :: 0 <= j < |s| ==> !Matches(s[j], kind, aux)
  {
    if |s| == 0 then None
    else if Matches(s[0], kind, aux) then Some(0)
    else match FindAlarm(s[1..], kind, aux)
      case None => None
      case Some(i) => Some(i + 1)
  }

  /** `buscar_slot_libre`: the first inactive slot. */
  function FreeSlot(s: seq<Alarm>): (r: Option<nat>)
    ensures r.Some? ==> r.value < |s| && !s[r.value].active
    ensures r.Some? ==> forall j :: 0 <= j < r.value ==> s[j].active
    ensures r.None? ==> forall j :: 0 <= j < |s| ==> s[j].active
  {
    if |s| == 0 then None
    else if !s[0].active then Some(0)
    else match FreeSlot(s[1..])
      case None => None
      case Some(i) => Some(i + 1)
  }

  /** Any index that is a first match is the one `FindAlarm` returns. */
  lemma {:induction false} FindAlarmIs(s: seq<Alarm>, kind: u32, aux: u32, i: nat)
    requires i < |s| && Matches(s[i], kind, aux)
    requires forall j :: 0 <= j < i ==> !Matches(s[j], kind, aux)
    ensures FindAlarm(s, kind, aux) == Some(i)
  {
    match FindAlarm(s, kind, aux)
    case None =>
    case Some(k) =>
  }

  /** Replacing a slot that matches a key neither before nor after does not change where that
      key is found. */
  lemma {:induction false} FindAlarmUnaffected(s: seq<Alarm>, i: nat, x: Alarm, kind: u32, aux: u32)
    requires i < |s| && !Matches(s[i], kind, aux) && !Matches(x, kind, aux)
    ensures FindAlarm(s[i := x], kind, aux) == FindAlarm(s, kind, aux)
  {
    var t := s[i := x];
    match FindAlarm(s, kind, aux)
    case None =>
      assert forall j :: 0 <= j < |t| ==> !Matches(t[j], kind, aux);
    case Some(k) =>
      FindAlarmIs(t, kind, aux, k);
  }

  /** The slot an armed alarm is given by `svc_alarma_activar`. */
  function Configured(w: u32, kind: u32, aux: u32): (a: Alarm)
    ensures Matches(a, kind, aux) && a.counter == a.delayMs
    ensures a.delayMs < DELAY_RANGE && a.periodic == (w >= PERIODIC_BIT)
  {
    Alarm(true, DecodePeriodic(w), DecodeDelay(w), DecodeDelay(w), kind, aux)
  }

  /** The pool after `svc_alarma_activar(w, kind, aux)`, or None when the pool is exhausted (the
      source marks the overflow monitor and halts). Word 0 deactivates the alarm with this key if
      there is one; any other word configures the slot holding this key, or else the first free
      slot. */
  function Activate(s: seq<Alarm>, w: u32, kind: u32, aux: u32): (r: Option<seq<Alarm>>)
    ensures r.None? <==> w != 0 && FindAlarm(s, kind, aux).None? && FreeSlot(s).None?
    ensures r.Some? ==> |r.value| == |s|
  {
    var found := FindAlarm(s, kind, aux);
    if w == 0 then
      match found
      case None => Some(s)
      case Some(i) => Some(s[i := s[i].(active := false)])
    else
      match found
      case Some(i) => Some(s[i := Configured(w, kind, aux)])
      case None =>
        match FreeSlot(s)
        case None => None
        case Some(i) => Some(s[i := Configured(w, kind, aux)])
  }

  /** Cancelling leaves no active alarm with the key, keeps keys unique, changes nothing else,
      and a second cancel changes nothing. */
  lemma {:induction false} CancelSpec(s: seq<Alarm>, kind: u32, aux: u32)
    requires UniqueKeys(s)
    ensures Activate(s, 0, kind, aux).Some?
    ensures var t := Activate(s, 0, kind, aux).value;
      && FindAlarm(t, kind, aux).None?
      && UniqueKeys(t)
      && (forall j :: 0 <= j < |s| && !Matches(s[j], kind, aux) ==> t[j] == s[j])
      && Activate(t, 0, kind, aux) == Some(t)
  {
    match FindAlarm(s, kind, aux)
    case None =>
    case Some(i) =>
      var t := s[i := s[i].(active := false)];
      forall j | 0 <= j < |t|
        ensures !Matches(t[j], kind, aux)
      {
        if j != i && i < j {
          assert !Matches(s[i], s[j].kind, s[j].aux) || !s[j].active;
        } else if j != i && j < i {
          assert !Matches(s[j], s[i].kind, s[i].aux);
        }
      }
  }

  /** Arming a key that is already active reconfigures that same slot; arming a new key takes
      the first free slot. Either way the alarm is then found in the chosen slot with its new
      configuration, keys stay unique, and every other slot is unchanged. */
  lemma {:induction false} ArmSpec(s: seq<Alarm>, w: u32, kind: u32, aux: u32)
    requires UniqueKeys(s) && w != 0
    requires Activate(s, w, kind, aux).Some?
    ensures var t := Activate(s, w, kind, aux).value;
      var i := if FindAlarm(s, kind, aux).Some? then FindAlarm(s, kind, aux).value else FreeSlot(s).value;
      && i < |s|
      && (FindAlarm(s, kind, aux).None? ==> FreeSlot(s) == Some(i))
      && t == s[i := Configured(w, kind, aux)]
      && FindAlarm(t, kind, aux) == Some(i)
      && UniqueKeys(t)
  {
    var i := if FindAlarm(s, kind, aux).Some? then FindAlarm(s, kind, aux).value else FreeSlot(s).value;
    var t := s[i := Configured(w, kind, aux)];
    forall j | 0 <= j < i
      ensures !Matches(t[j], kind, aux)
    {
    }
    FindAlarmIs(t, kind, aux, i);
    forall a, b | 0 <= a < b < |t| && t[b].active
      ensures !Matches(t[a], t[b].kind, t[b].aux)
    {
      if a == i {
        assert !Matches(s[b], kind, aux);
      } else if b == i {
        assert !Matches(s[a], kind, aux);
      }
    }
  }

  /** Arming or cancelling one key does not move any other key's alarm. */
  lemma {:induction false} ActivateIsolated(s: seq<Alarm>, w: u32, kind: u32, aux: u32, kind': u32, aux': u32)
    requires Activate(s, w, kind, aux).Some?
    requires kind' != kind || aux' != aux
    ensures FindAlarm(Activate(s, w, kind, aux).value, kind', aux') == FindAlarm(s, kind', aux')
  {
    var found := FindAlarm(s, kind, aux);
    if w == 0 {
      if found.Some? {
        FindAlarmUnaffected(s, found.value, s[found.value].(active := false), kind', aux');
      }
    } else {
      var i := if found.Some? then found.value else FreeSlot(s).value;
      FindAlarmUnaffected(s, i, Configured(w, kind, aux), kind', aux');
    }
  }

  /** The pool after a series of `svc_alarma_activar` calls on one key, in order, or None when
      one of them exhausts the pool. */
  function ActivateAll(s: seq<Alarm>, words: seq<u32>, kind: u32, aux: u32): (r: Option<seq<Alarm>>)
    ensures r.Some? ==> |r.value| == |s|
    decreases |words|
  {
    if words == [] then Some(s)
    else match Activate(s, words[0], kind, aux)
      case None => None
      case Some(t) => ActivateAll(t, words[1..], kind, aux)
  }

  /** Any number of calls on one key leave where every other key is found as it was. */
  lemma {:induction false} ActivateAllIsolated(s: seq<Alarm>, words: seq<u32>, kind: u32, aux: u32, kind': u32, aux': u32)
    requires ActivateAll(s, words, kind, aux).Some?
    requires kind' != kind || aux' != aux
    ensures FindAlarm(ActivateAll(s, words, kind, aux).value, kind', aux') == FindAlarm(s, kind', aux')
    decreases |words|
  {
    if words != [] {
      var t := Activate(s, words[0], kind, aux).value;
      ActivateIsolated(s, words[0], kind, aux, kind', aux');
      ActivateAllIsolated(t, words[1..], kind, aux, kind', aux');
    }
  }

  /** Whether an alarm calls the enqueue callback on this tick: it is active and its counter,
      after the floor-at-zero decrement, is zero. */
  predicate FiresOnTick(a: Alarm)
  {
    a.active && a.counter <= 1
  }

  /** One alarm after one tick of `svc_alarma_actualizar`. */
  function AfterTick(a: Alarm): (b: Alarm)
    ensures b.kind == a.kind && b.aux == a.aux && b.periodic == a.periodic && b.delayMs == a.delayMs
    ensures b.active ==> a.active
  {
    if !a.active then a
    else
      var c := if a.counter > 0 then a.counter - 1 else 0;
      if c != 0 then a.(counter := c)
      else if a.periodic then a.(counter := a.delayMs)
      else a.(counter := 0, active := false)
  }

  /** The pool after one tick. */
  function TickAll(s: seq<Alarm>): (t: seq<Alarm>)
    ensures |t| == |s| && forall i :: 0 <= i < |s| ==> t[i] == AfterTick(s[i])
  {
    seq(|s|, i requires 0 <= i < |s| => AfterTick(s[i]))
  }

  /** The (kind, aux) pairs one tick hands to the enqueue callback, in slot order. */
  function FiredNotices(s: seq<Alarm>): (r: seq<Notice>)
    ensures |r| <= |s|
  {
    if s == [] then []
    else
      var last := s[|s| - 1];
      FiredNotices(s[..|s| - 1]) + (if FiresOnTick(last) then [Notice(last.kind, last.aux)] else [])
  }

  /** The notices of a tick are what the loop of `svc_alarma_actualizar` accumulates slot by
      slot (`FiringKeys`). */
  lemma {:induction false} FiredNoticesAreFiringSlots(s: seq<Alarm>, n: nat)
    requires n <= |s|
    ensures FiredNotices(s[..n]) == FiringKeys(s, n)
    decreases n
  {
    if n > 0 {
      assert s[..n][..n - 1] == s[..n - 1];
      FiredNoticesAreFiringSlots(s, n - 1);
    } else {
      assert s[..0] == [];
    }
  }

  /** The keys of the firing slots among the first n, in slot order. */
  function FiringKeys(s: seq<Alarm>, n: nat): seq<Notice>
    requires n <= |s|
  {
    if n == 0 then []
    else FiringKeys(s, n - 1) + (if FiresOnTick(s[n - 1]) then [Notice(s[n - 1].kind, s[n - 1].aux)] else [])
  }

  /** A notice is sent on a tick exactly when some slot fires with that key. */
  lemma {:induction false} FiredNoticesFromFiringSlots(s: seq<Alarm>)
    ensures forall n :: n in FiredNotices(s) <==>
      exists i :: 0 <= i < |s| && FiresOnTick(s[i]) && n == Notice(s[i].kind, s[i].aux)
  {
    if s != [] {
      var p := s[..|s| - 1];
      FiredNoticesFromFiringSlots(p);
      forall n
        ensures n in FiredNotices(s) <==>
          exists i :: 0 <= i < |s| && FiresOnTick(s[i]) && n == Notice(s[i].kind, s[i].aux)
      {
        if n in FiredNotices(p) {
          var i :| 0 <= i < |p| && FiresOnTick(p[i]) && n == Notice(p[i].kind, p[i].aux);
          assert s[i] == p[i];
        }
        if exists i :: 0 <= i < |s| && FiresOnTick(s[i]) && n == Notice(s[i].kind, s[i].aux) {
          var i :| 0 <= i < |s| && FiresOnTick(s[i]) && n == Notice(s[i].kind, s[i].aux);
          if i < |p| {
            assert p[i] == s[i];
          }
        }
      }
    }
  }

  /** With unique keys, a tick sends each firing slot's key exactly once, and (by
      `FiredNoticesFromFiringSlots`) nothing that is not a firing slot's key. */
  lemma {:induction false} FiredNoticesOncePerFiringSlot(s: seq<Alarm>)
    requires UniqueKeys(s)
    ensures forall n :: n in FiredNotices(s) <==>
      exists i :: 0 <= i < |s| && FiresOnTick(s[i]) && n == Notice(s[i].kind, s[i].aux)
    ensures forall i :: 0 <= i < |s| && FiresOnTick(s[i]) ==>
      multiset(FiredNotices(s))[Notice(s[i].kind, s[i].aux)] == 1
  {
    FiredNoticesFromFiringSlots(s);
    if s != [] {
      var p := s[..|s| - 1];
      var last := s[|s| - 1];
      assert forall i :: 0 <= i < |p| ==> p[i] == s[i];
      assert UniqueKeys(p);
      FiredNoticesOncePerFiringSlot(p);
      var tail := if FiresOnTick(last) then [Notice(last.kind, last.aux)] else [];
      assert FiredNotices(s) == FiredNotices(p) + tail;
      forall i | 0 <= i < |s| && FiresOnTick(s[i])
        ensures multiset(FiredNotices(s))[Notice(s[i].kind, s[i].aux)] == 1
      {
        var n := Notice(s[i].kind, s[i].aux);
        if i < |p| {
          assert p[i] == s[i];
          assert multiset(FiredNotices(p))[n] == 1;
          if FiresOnTick(last) {
            assert !Matches(s[i], last.kind, last.aux);
          }
          assert multiset(tail)[n] == 0;
        } else {
          if n in FiredNotices(p) {
            var j :| 0 <= j < |p| && FiresOnTick(p[j]) && n == Notice(p[j].kind, p[j].aux);
            assert Matches(s[j], last.kind, last.aux);
            assert false;
          }
          assert multiset(FiredNotices(p))[n] == 0;
        }
      }
    }
  }

  /** A tick keeps keys unique: it changes no key and only ever deactivates. */
  lemma {:induction false} TickKeepsUniqueKeys(s: seq<Alarm>)
    requires UniqueKeys(s)
    ensures UniqueKeys(TickAll(s))
  {
    var t := TickAll(s);
    forall i, j | 0 <= i < j < |t| && t[j].active
      ensures !Matches(t[i], t[j].kind, t[j].aux)
    {
      assert s[j].active;
    }
  }

  /** An alarm after n ticks, with no other call in between. */
  function TicksN(a: Alarm, n: nat): Alarm
    decreases n
  {
    if n == 0 then a else TicksN(AfterTick(a), n - 1)
  }

  /** How many of n ticks fire the alarm. */
  function FireCount(a: Alarm, n: nat): nat
    decreases n
  {
    if n == 0 then 0 else (if FiresOnTick(a) then 1 else 0) + FireCount(AfterTick(a), n - 1)
  }

  lemma {:induction false} FireCountSplit(a: Alarm, n1: nat, n2: nat)
    ensures FireCount(a, n1 + n2) == FireCount(a, n1) + FireCount(TicksN(a, n1), n2)
    ensures TicksN(a, n1 + n2) == TicksN(TicksN(a, n1), n2)
    decreases n1
  {
    if n1 > 0 {
      FireCountSplit(AfterTick(a), n1 - 1, n2);
    }
  }

  /** An inactive alarm never fires and never changes. */
  lemma {:induction false} InactiveStaysSilent(a: Alarm, n: nat)
    requires !a.active
    ensures FireCount(a, n) == 0 && TicksN(a, n) == a
    decreases n
  {
    if n > 0 {
      InactiveStaysSilent(a, n - 1);
    }
  }

  /** An active alarm with counter c stays silent for the first k < c ticks, counting down. */
  lemma {:induction false} SilentCountdown(a: Alarm, k: nat)
    requires a.active && k < a.counter
    ensures FireCount(a, k) == 0 && TicksN(a, k) == a.(counter := a.counter - k)
    decreases k
  {
    if k > 0 {
      SilentCountdown(AfterTick(a), k - 1);
    }
  }

  /** The ticks between firings: the delay, or 1 for a zero delay (which fires on every tick). */
  function Period(a: Alarm): (p: nat)
    ensures p >= 1 && (a.delayMs >= 1 ==> p == a.delayMs)
  {
    if a.delayMs == 0 then 1 else a.delayMs
  }

  /** A freshly (re)loaded periodic alarm fires once in its period and is then reloaded. */
  lemma {:induction false} OnePeriod(a: Alarm)
    requires a.active && a.periodic && a.counter == a.delayMs
    ensures FireCount(a, Period(a)) == 1 && TicksN(a, Period(a)) == a
  {
    var p := Period(a);
    if a.delayMs >= 1 {
      SilentCountdown(a, p - 1);
      FireCountSplit(a, p - 1, 1);
      assert TicksN(a, p - 1) == a.(counter := 1);
    }
  }

  /** A periodic alarm armed with period P fires once every P ticks: after n ticks it has fired
      n / P times. */
  lemma {:induction false} PeriodicCadence(a: Alarm, n: nat)
    requires a.active && a.periodic && a.counter == a.delayMs
    ensures FireCount(a, n) == n / Period(a)
    decreases n
  {
    var p := Period(a);
    if n < p {
      if n > 0 {
        SilentCountdown(a, n);
      }
      DivUnique(n, p, 0, n);
    } else {
      OnePeriod(a);
      FireCountSplit(a, p, n - p);
      PeriodicCadence(a, n - p);
      assert (n - p) / p + 1 == n / p by {
        DivShift(n - p, p);
      }
    }
  }

  lemma {:induction false} DivShift(m: nat, p: nat)
    requires p >= 1
    ensures (m + p) / p == m / p + 1
  {
    var q, r := m / p, m % p;
    assert m + p == (q + 1) * p + r;
    DivUnique(m + p, p, q + 1, r);
  }

  /** Quotient and remainder are unique. */
  lemma {:induction false} DivUnique(a: nat, p: nat, q: int, r: int)
    requires p >= 1 && 0 <= r < p && a == q * p + r
    ensures a / p == q
  {
    var q', r' := a / p, a % p;
    assert (q - q') * p == r' - r;
    assert (q' - q) * p == r - r';
    Timing.LessFromProducts(q - q', 1, p);
    Timing.LessFromProducts(q' - q, 1, p);
  }

  /** A one-shot alarm with counter D >= 1 fires exactly once, on tick D, and is then inactive. */
  lemma {:induction false} OneShotFiresOnce(a: Alarm, n: nat)
    requires a.active && !a.periodic && a.counter >= 1
    ensures FireCount(a, n) == (if n >= a.counter then 1 else 0)
    ensures n >= a.counter ==> !TicksN(a, n).active
  {
    var d := a.counter;
    if n < d {
      SilentCountdown(a, n);
    } else {
      SilentCountdown(a, d - 1);
      FireCountSplit(a, d - 1, 1);
      var b := TicksN(a, d);
      assert b == a.(counter := 0, active := false);
      FireCountSplit(a, d, n - d);
      InactiveStaysSilent(b, n - d);
    }
  }

  /** An alarm armed periodic with 500 ms fires three times in 1500 ticks. */
  lemma PeriodicExample(kind: u32, aux: u32)
    ensures FireCount(Configured(Codificar(true, 500, 0), kind, aux), 1500) == 3
  {
    CodificarRoundTrip(true, 500, 0);
    PeriodicCadence(Configured(Codificar(true, 500, 0), kind, aux), 1500);
  }

  /** The pool and the configuration of the service. */
  class AlarmService {
    const slots: array<Alarm>   // m_alarmas
    var hasCallback: bool       // m_cb_a_llamar != NULL
    var tickEvent: u32          // m_ev_a_notificar
    var overflowMonitor: u32    // g_M_overflow_monitor_id
    var halted: bool            // the exhaustion `while (1)` has been reached
    var marks: seq<u8>          // monitor ids handed to drv_monitor_marcar (MONITOR_id_t)
    var notified: seq<Notice>   // every (kind, aux) handed to the enqueue callback

    ghost predicate Valid()
      reads this, slots
    {
      slots.Length == ALARMS_MAX && UniqueKeys(slots[..])
    }

    /** The zero-initialised statics, before `svc_alarma_iniciar`. */
    constructor ()
      ensures Valid() && fresh(slots) && !halted && marks == [] && notified == []
      ensures forall i :: 0 <= i < ALARMS_MAX ==> !slots[i].active
    {
      slots := new Alarm[ALARMS_MAX](_ => IDLE_ALARM);
      hasCallback, tickEvent, overflowMonitor := false, 0, 0;
      halted, marks, notified := false, [], [];
    }

    /** `svc_alarma_iniciar`: records the configuration, deactivates every slot (leaving its
        other fields), subscribes `svc_alarma_actualizar` to the tick event with priority 0 and,
        unless that subscription halted, asks the time driver for a 1 ms tick that forwards the
        tick event to the enqueue callback. */
    method Iniciar(monitorOverflow: u32, callbackPresent: bool, ev: u32, table: Subs.SubscriptionTable, timer: Timing.TimeDriver)
      requires Valid() && table.Valid() && !table.halted
      modifies this`overflowMonitor, this`hasCallback, this`tickEvent, slots
      modifies table`halted, table`marks, table.table, table.counts, timer
      ensures Valid() && table.Valid()
      ensures overflowMonitor == monitorOverflow && hasCallback == callbackPresent && tickEvent == ev
      ensures forall i :: 0 <= i < ALARMS_MAX ==> slots[i] == old(slots[i]).(active := false)
      ensures Subs.SubscribeResult(old(table.Lists()), ev, 0, Subs.AlarmaActualizar).None? ==>
        table.halted && unchanged(timer)
      ensures Subs.SubscribeResult(old(table.Lists()), ev, 0, Subs.AlarmaActualizar).Some? ==>
        !table.halted && table.Lists() == Subs.SubscribeResult(old(table.Lists()), ev, 0, Subs.AlarmaActualizar).value
      ensures !table.halted ==> old(timer.started) && callbackPresent ==>
        && timer.parameter == ev && timer.hasCallback && timer.halRegistered
        && timer.halPeriod == (old(timer.ticksPerUs) * 1000) % U32_MODULUS
      ensures !table.halted ==> !(old(timer.started) && callbackPresent) ==> unchanged(timer)
    {
      ghost var lists := table.Lists();
      overflowMonitor := monitorOverflow;
      hasCallback := callbackPresent;
      tickEvent := ev;
      DeactivateAll();
      assert table.Lists() == lists && unchanged(timer);
      StartTick(ev, callbackPresent, table, timer);
    }

    /** The initialising loop of `svc_alarma_iniciar`: every slot inactive, other fields kept. */
    method DeactivateAll()
      requires slots.Length == ALARMS_MAX
      modifies slots
      ensures Valid()
      ensures forall i :: 0 <= i < ALARMS_MAX ==> slots[i] == old(slots[i]).(active := false)
    {
      var i := 0;
      while i < ALARMS_MAX
        invariant 0 <= i <= ALARMS_MAX
        invariant forall j :: 0 <= j < i ==> slots[j] == old(slots[j]).(active := false)
        invariant forall j :: i <= j < ALARMS_MAX ==> slots[j] == old(slots[j])
      {
        slots[i] := slots[i].(active := false);
        i := i + 1;
      }
    }

    /** `buscar_alarma`. */
    method BuscarAlarma(kind: u32, aux: u32) returns (r: Option<nat>)
      requires Valid()
      ensures r == FindAlarm(slots[..], kind, aux)
    {
      var i := 0;
      while i < ALARMS_MAX
        invariant 0 <= i <= ALARMS_MAX
        invariant forall j :: 0 <= j < i ==> !Matches(slots[j], kind, aux)
      {
        if slots[i].active && slots[i].kind == kind && slots[i].aux == aux {
          FindAlarmIs(slots[..], kind, aux, i);
          return Some(i);
        }
        i := i + 1;
      }
      return None;
    }

    /** `buscar_slot_libre`. */
    method BuscarSlotLibre() returns (r: Option<nat>)
      requires Valid()
      ensures r == FreeSlot(slots[..])
    {
      var i := 0;
      while i < ALARMS_MAX
        invariant 0 <= i <= ALARMS_MAX
        invariant forall j :: 0 <= j < i ==> slots[j].active
      {
        if !slots[i].active {
          FreeSlotIs(slots[..], i);
          return Some(i);
        }
        i := i + 1;
      }
      return None;
    }

    /** `svc_alarma_activar`. When the pool is exhausted it marks the overflow monitor (when its
        32-bit id is nonzero; the mark receives the id's low 8 bits, as MONITOR_id_t) and halts
        with the slots untouched; otherwise the slots become `Activate`'s. */
    method Activar(w: u32, kind: u32, aux: u32)
      requires Valid() && !halted
      modifies this`halted, this`marks, slots
      ensures Valid()
      ensures Activate(old(slots[..]), w, kind, aux).None? ==>
        && halted && slots[..] == old(slots[..])
        && marks == old(marks) + (if overflowMonitor != 0 then [overflowMonitor % 256] else [])
      ensures Activate(old(slots[..]), w, kind, aux).Some? ==>
        !halted && marks == old(marks) && slots[..] == Activate(old(slots[..]), w, kind, aux).value
    {
      var found := BuscarAlarma(kind, aux);
      if w == 0 {
        if found.Some? {
          var i := found.value;
          slots[i] := slots[i].(active := false);
        }
        CancelSpec(old(slots[..]), kind, aux);
        return;
      }
      var slot := found;
      if slot.None? {
        slot := BuscarSlotLibre();
        if slot.None? {
          if overflowMonitor != 0 {
            marks := marks + [overflowMonitor % 256];
          }
          halted := true;
          return;
        }
      }
      ArmSpec(slots[..], w, kind, aux);
      var i := slot.value;
      slots[i] := Alarm(true, DecodePeriodic(w), DecodeDelay(w), DecodeDelay(w), kind, aux);
    }

    /** `svc_alarma_actualizar`. Any event but the tick event changes nothing. On a tick every
        active slot counts down (never below zero); a slot at zero hands (kind, aux) to the
        enqueue callback when there is one, then reloads its delay (periodic) or goes inactive. */
    method Actualizar(evento: u32, aux: u32)
      requires Valid()
      modifies this`notified, slots
      ensures Valid()
      ensures evento != tickEvent ==> slots[..] == old(slots[..]) && notified == old(notified)
      ensures evento == tickEvent ==>
        && slots[..] == TickAll(old(slots[..]))
        && notified == old(notified) + (if hasCallback then FiredNotices(old(slots[..])) else [])
    {
      if evento != tickEvent {
        return;
      }
      ghost var s := slots[..];
      var i := 0;
      while i < ALARMS_MAX
        invariant 0 <= i <= ALARMS_MAX
        invariant forall j :: 0 <= j < i ==> slots[j] == AfterTick(s[j])
        invariant forall j :: i <= j < ALARMS_MAX ==> slots[j] == s[j]
        invariant notified == old(notified) + (if hasCallback then FiringKeys(s, i) else [])
      {
        TickSlot(i);
        i := i + 1;
      }
      assert slots[..] == TickAll(s);
      assert s[..ALARMS_MAX] == s;
      FiredNoticesAreFiringSlots(s, ALARMS_MAX);
      TickKeepsUniqueKeys(s);
    }

    /** One pass of the loop in `svc_alarma_actualizar`: counts slot `i` down and, when it
        reaches zero, notifies its (kind, aux) and reloads or deactivates it. */
    method TickSlot(i: nat)
      requires i < slots.Length
      modifies this`notified, slots
      ensures slots[i] == AfterTick(old(slots[i]))
      ensures forall j :: 0 <= j < slots.Length && j != i ==> slots[j] == old(slots[j])
      ensures notified == old(notified) +
        (if hasCallback && FiresOnTick(old(slots[i])) then [Notice(old(slots[i]).kind, old(slots[i]).aux)] else [])
    {
      if slots[i].active {
        if slots[i].counter > 0 {
          slots[i] := slots[i].(counter := slots[i].counter - 1);
        }
        if slots[i].counter == 0 {
          if hasCallback {
            notified := notified + [Notice(slots[i].kind, slots[i].aux)];
          }
          if slots[i].periodic {
            slots[i] := slots[i].(counter := slots[i].delayMs);
          } else {
            slots[i] := slots[i].(active := false);
          }
        }
      }
    }
  }

  /** The last two steps of `svc_alarma_iniciar`: subscribe `svc_alarma_actualizar` to the tick
      event with priority 0, then, unless that halted, program the 1 ms hardware tick. */
  method StartTick(ev: u32, callbackPresent: bool, table: Subs.SubscriptionTable, timer: Timing.TimeDriver)
    requires table.Valid() && !table.halted
    modifies table`halted, table`marks, table.table, table.counts, timer
    ensures table.Valid()
    ensures Subs.SubscribeResult(old(table.Lists()), ev, 0, Subs.AlarmaActualizar).None? ==>
      table.halted && unchanged(timer)
    ensures Subs.SubscribeResult(old(table.Lists()), ev, 0, Subs.AlarmaActualizar).Some? ==>
      !table.halted && table.Lists() == Subs.SubscribeResult(old(table.Lists()), ev, 0, Subs.AlarmaActualizar).value
    ensures !table.halted ==> old(timer.started) && callbackPresent ==>
      && timer.parameter == ev && timer.hasCallback && timer.halRegistered
      && timer.halPeriod == (old(timer.ticksPerUs) * 1000) % U32_MODULUS
    ensures !table.halted ==> !(old(timer.started) && callbackPresent) ==> unchanged(timer)
  {
    table.Subscribe(ev, 0, Subs.AlarmaActualizar);
    if table.halted {
      return;
    }
    timer.PeriodicoMs(TICK_PERIOD_MS, callbackPresent, ev);
  }

  /** Any index that is a first free slot is the one `FreeSlot` returns. */
  lemma {:induction false} FreeSlotIs(s: seq<Alarm>, i: nat)
    requires i < |s| && !s[i].active
    requires forall j :: 0 <= j < i ==> s[j].active
    ensures FreeSlot(s) == Some(i)
  {
    match FreeSlot(s)
    case None =>
    case Some(k) =>
  }
}
