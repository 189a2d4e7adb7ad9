/**
 * The event manager's run-time side (src/rt_GE.c): start-up of the subscription table,
 * one iteration of the dispatcher loop `rt_GE_lanzador`, and the manager's own handler
 * `rt_GE_actualizar`, which drives the inactivity alarm and deep sleep.
 */
module Dispatcher {
  import opened Events
  import CS = CriticalSection
  import Fifo
  import Subs = Subscriptions
  import Alarms

  /** INACTIVITY_TIME_MS: idle time before deep sleep. */
  const INACTIVITY_TIME_MS: u32 := 10000

  /** `sec`: the watchdog period, in seconds, passed to `drv_WDT_iniciar`. */
  const WDT_SECONDS: nat := 1

  const PRIORITY_HIGH: u8 := 0  // prioridad_alta
  const PRIORITY_LOW: u8 := 1   // prioridad_baja

  /** The alarm word of the inactivity alarm: one-shot, 10000 ms, no flags. */
  function InactivityWord(): (w: u32)
    ensures w != 0
    ensures !Alarms.DecodePeriodic(w) && Alarms.DecodeDelay(w) == INACTIVITY_TIME_MS
  {
    Alarms.CodificarRoundTrip(false, INACTIVITY_TIME_MS, 0);
    Alarms.Codificar(false, INACTIVITY_TIME_MS, 0)
  }

  /** The armed inactivity alarm: active, one-shot, counting down 10000 ticks, keyed (ev_INACTIVIDAD, 0). */
  const INACTIVITY_ALARM: Alarms.Alarm :=
    Alarms.Alarm(true, false, INACTIVITY_TIME_MS, INACTIVITY_TIME_MS, EV_INACTIVIDAD, 0)

  /** The kinds `rt_GE_iniciar` subscribes `rt_GE_actualizar` to, and with which priority. */
  function ControlPriority(kind: nat): Option<u8>
  {
    if kind == EV_INACTIVIDAD then Some(PRIORITY_HIGH)
    else if kind == EV_PULSAR_BOTON || kind == EV_JUEGO_NUEVO_LED || kind == EV_JUEGO_TIMEOUT then Some(PRIORITY_LOW)
    else None
  }

  /** The subscriber list of each kind right after `rt_GE_iniciar`. */
  function BootRow(kind: nat): seq<Subs.Subscription>
  {
    match ControlPriority(kind)
    case None => []
    case Some(p) => [Subs.Subscription(Subs.GeActualizar, p)]
  }

  /** The collaborators the dispatcher drives: the watchdog (`drv_WDT`) and the power modes
      (`drv_consumo`), seen through the requests they receive. */
  class Platform {
    var wdtSeconds: nat   // the period last passed to drv_WDT_iniciar; 0 before
    var feeds: nat        // drv_WDT_alimentar calls
    var idleWaits: nat    // drv_consumo_esperar calls
    var deepSleeps: nat   // drv_consumo_dormir calls

    constructor ()
      ensures wdtSeconds == 0 && feeds == 0 && idleWaits == 0 && deepSleeps == 0
    {
      wdtSeconds, feeds, idleWaits, deepSleeps := 0, 0, 0, 0;
    }
  }

  /** `rt_GE_iniciar`: starts the watchdog with a 1 s period, records the overflow monitor,
      empties the table, and subscribes `rt_GE_actualizar` to ev_INACTIVIDAD with priority 0 and
      to ev_PULSAR_BOTON, ev_JUEGO_NUEVO_LED and ev_JUEGO_TIMEOUT with priority 1. None of these
      four subscriptions can overflow a freshly emptied table. */
  method Iniciar(monitorOverflow: u32, table: Subs.SubscriptionTable, plat: Platform)
    requires table.Valid() && !table.halted
    modifies plat`wdtSeconds, table`overflowMonitor, table`halted, table`marks, table.table, table.counts
    ensures table.Valid() && !table.halted && table.marks == old(table.marks)
    ensures table.overflowMonitor == monitorOverflow && plat.wdtSeconds == WDT_SECONDS
    ensures forall k :: 0 <= k < EVENT_TYPES ==> table.Row(k) == BootRow(k)
  {
    plat.wdtSeconds := WDT_SECONDS;
    table.Reset(monitorOverflow);
    SubscribeFirst(table, EV_INACTIVIDAD, PRIORITY_HIGH);
    SubscribeFirst(table, EV_PULSAR_BOTON, PRIORITY_LOW);
    SubscribeFirst(table, EV_JUEGO_NUEVO_LED, PRIORITY_LOW);
    SubscribeFirst(table, EV_JUEGO_TIMEOUT, PRIORITY_LOW);
  }

  /** One subscription of `rt_GE_iniciar`: `rt_GE_actualizar` becomes the only subscriber of a
      kind that had none, and no other list changes. */
  method SubscribeFirst(table: Subs.SubscriptionTable, kind: nat, p: u8)
    requires table.Valid() && !table.halted && kind < EVENT_TYPES && table.Row(kind) == []
    modifies table`halted, table`marks, table.table, table.counts
    ensures table.Valid() && !table.halted && table.marks == old(table.marks)
    ensures table.Row(kind) == [Subs.Subscription(Subs.GeActualizar, p)]
    ensures forall k :: 0 <= k < EVENT_TYPES && k != kind ==> table.Row(k) == old(table.Row(k))
  {
    ghost var before := table.Lists();
    ghost var e := Subs.Subscription(Subs.GeActualizar, p);
    assert before[kind] == [];
    assert Subs.InsertPos([], p) == 0;
    assert Subs.InsertSorted([], e) == [e];
    table.Subscribe(kind, p, Subs.GeActualizar);
    assert table.Lists() == before[kind := [e]];
    assert table.Lists()[kind] == table.Row(kind);
    forall k | 0 <= k < EVENT_TYPES && k != kind
      ensures table.Row(k) == old(table.Row(k))
    {
      assert table.Lists()[k] == before[k];
    }
  }

  /** Arms the inactivity alarm: `svc_alarma_activar(codificar(false, 10000, 0), ev_INACTIVIDAD, 0)`,
      as the dispatcher does before its loop and on every button press. The pool is exhausted,
      and the service halts, exactly when no alarm has this key and no slot is free; otherwise
      the key is found in the slot chosen for it, armed one-shot for 10000 ticks, and no other
      slot changes. A halt marks the overflow monitor (when nonzero) and leaves the slots. */
  method ArmInactivity(alarms: Alarms.AlarmService)
    requires alarms.Valid() && !alarms.halted
    modifies alarms`halted, alarms`marks, alarms.slots
    ensures alarms.Valid()
    ensures alarms.halted <==>
      Alarms.FindAlarm(old(alarms.slots[..]), EV_INACTIVIDAD, 0).None? && Alarms.FreeSlot(old(alarms.slots[..])).None?
    ensures alarms.halted ==>
      && alarms.slots[..] == old(alarms.slots[..])
      && alarms.marks == old(alarms.marks) + (if alarms.overflowMonitor != 0 then [alarms.overflowMonitor % 256] else [])
    ensures !alarms.halted ==>
      && alarms.marks == old(alarms.marks)
      && Alarms.Activate(old(alarms.slots[..]), InactivityWord(), EV_INACTIVIDAD, 0) == Some(alarms.slots[..])
      && Alarms.FindAlarm(alarms.slots[..], EV_INACTIVIDAD, 0).Some?
      && alarms.slots[Alarms.FindAlarm(alarms.slots[..], EV_INACTIVIDAD, 0).value] == INACTIVITY_ALARM
      && forall i :: 0 <= i < Alarms.ALARMS_MAX && i != Alarms.FindAlarm(alarms.slots[..], EV_INACTIVIDAD, 0).value ==>
           alarms.slots[i] == old(alarms.slots[i])
  {
    ghost var s := alarms.slots[..];
    var w := InactivityWord();
    alarms.Activar(w, EV_INACTIVIDAD, 0);
    if !alarms.halted {
      Alarms.ArmSpec(s, w, EV_INACTIVIDAD, 0);
    }
  }

  /** Once armed, the inactivity alarm stays silent for 9999 ticks, fires once on tick 10000, and
      never again unless re-armed. */
  lemma InactivityFiresOnceAfterTenSeconds(n: nat)
    ensures Alarms.FireCount(INACTIVITY_ALARM, n) == (if n >= 10000 then 1 else 0)
  {
    Alarms.OneShotFiresOnce(INACTIVITY_ALARM, n);
  }

  /** One iteration of the loop in `rt_GE_lanzador`. The watchdog is fed inside a critical
      section; then, inside another, one event is popped. If there was one, the section is left
      and, for a kind in range, every subscriber of that kind is called with (kind, aux) in table
      order (`calls`); if the queue was empty, the section is left and the processor waits idle.
      Unless the nesting counter wraps, the critical section ends as it began. */
  method LanzadorStep(q: Fifo.EventQueue, sc: CS.Section, table: Subs.SubscriptionTable, plat: Platform)
    returns (calls: seq<Subs.Invocation>)
    requires q.Valid() && table.Valid()
    modifies q`lastServed, q`head, q`count, q`Contents, sc, plat`feeds, plat`idleWaits
    ensures q.Valid() && plat.feeds == old(plat.feeds) + 1
    ensures old(sc.depth) + 1 < U32_MODULUS ==> sc.Current() == CS.State(old(sc.depth), old(sc.depth) == 0)
    ensures old(q.Contents) == [] ==>
      q.Contents == [] && calls == [] && plat.idleWaits == old(plat.idleWaits) + 1
    ensures old(q.Contents) != [] ==>
      && q.Contents == old(q.Contents)[1..] && plat.idleWaits == old(plat.idleWaits)
      && calls == DispatchOf(table, old(q.Contents)[0])
  {
    FeedWatchdog(sc, plat);
    calls := ServeOne(q, sc, table, plat);
  }

  /** The watchdog feed at the top of the loop, inside its own critical section. */
  method FeedWatchdog(sc: CS.Section, plat: Platform)
    modifies sc, plat`feeds
    ensures plat.feeds == old(plat.feeds) + 1
    ensures sc.Current() == CS.State(old(sc.depth), old(sc.depth) == 0)
  {
    CS.BracketRestores(sc.Current());
    var _ := sc.Enter();
    plat.feeds := plat.feeds + 1;
    sc.Exit();
  }

  /** The rest of the loop body: pop one event inside a critical section, then dispatch it or
      wait idle. */
  method ServeOne(q: Fifo.EventQueue, sc: CS.Section, table: Subs.SubscriptionTable, plat: Platform)
    returns (calls: seq<Subs.Invocation>)
    requires q.Valid() && table.Valid()
    modifies q`lastServed, q`head, q`count, q`Contents, sc, plat`idleWaits
    ensures q.Valid()
    ensures old(sc.depth) + 1 < U32_MODULUS ==> sc.Current() == CS.State(old(sc.depth), old(sc.depth) == 0)
    ensures old(q.Contents) == [] ==>
      q.Contents == [] && calls == [] && plat.idleWaits == old(plat.idleWaits) + 1
    ensures old(q.Contents) != [] ==>
      && q.Contents == old(q.Contents)[1..] && plat.idleWaits == old(plat.idleWaits)
      && calls == DispatchOf(table, old(q.Contents)[0])
  {
    CS.BracketRestores(sc.Current());
    var _ := sc.Enter();
    var r, ev := q.Pop(sc);
    if r != 0 {
      sc.Exit();
      calls := table.Dispatch(ev.value.kind, ev.value.aux);
    } else {
      sc.Exit();
      plat.idleWaits := plat.idleWaits + 1;
      calls := [];
    }
  }

  /** What the dispatch loop calls for one popped event: nothing for a kind out of range;
      otherwise each subscriber of the kind, in table order, with the event's kind and payload. */
  function DispatchOf(table: Subs.SubscriptionTable, e: Event): (calls: seq<Subs.Invocation>)
    reads table.table, table.counts
    requires table.Valid()
    ensures e.kind >= EVENT_TYPES ==> calls == []
    ensures e.kind < EVENT_TYPES ==>
      && |calls| == |table.Row(e.kind)|
      && forall i :: 0 <= i < |calls| ==> calls[i] == Subs.Invocation(table.Row(e.kind)[i].callback, e.kind, e.aux)
  {
    if e.kind >= EVENT_TYPES then []
    else
      Subs.InvocationsOfValidList(table.Row(e.kind), e.kind, e.aux);
      Subs.Invocations(table.Row(e.kind), e.kind, e.aux)
  }

  /** `rt_GE_actualizar`: ev_INACTIVIDAD puts the processor into deep sleep; ev_PULSAR_BOTON
      re-arms the inactivity alarm; every other kind, the game's own events included, does
      nothing. */
  method Actualizar(evento: u32, aux: u32, alarms: Alarms.AlarmService, plat: Platform)
    requires alarms.Valid() && !alarms.halted
    modifies plat`deepSleeps, alarms`halted, alarms`marks, alarms.slots
    ensures alarms.Valid()
    ensures plat.deepSleeps == old(plat.deepSleeps) + (if evento == EV_INACTIVIDAD then 1 else 0)
    ensures evento != EV_PULSAR_BOTON ==>
      !alarms.halted && alarms.slots[..] == old(alarms.slots[..]) && alarms.marks == old(alarms.marks)
    ensures evento == EV_PULSAR_BOTON && alarms.halted ==>
      && alarms.slots[..] == old(alarms.slots[..])
      && alarms.marks == old(alarms.marks) + (if alarms.overflowMonitor != 0 then [alarms.overflowMonitor % 256] else [])
    ensures evento == EV_PULSAR_BOTON && !alarms.halted ==>
      && alarms.marks == old(alarms.marks)
      && Alarms.Activate(old(alarms.slots[..]), InactivityWord(), EV_INACTIVIDAD, 0) == Some(alarms.slots[..])
      && Alarms.FindAlarm(alarms.slots[..], EV_INACTIVIDAD, 0).Some?
      && alarms.slots[Alarms.FindAlarm(alarms.slots[..], EV_INACTIVIDAD, 0).value] == INACTIVITY_ALARM
      && forall i :: 0 <= i < Alarms.ALARMS_MAX && i != Alarms.FindAlarm(alarms.slots[..], EV_INACTIVIDAD, 0).value ==>
           alarms.slots[i] == old(alarms.slots[i])
  {
    if evento == EV_INACTIVIDAD {
      plat.deepSleeps := plat.deepSleeps + 1;
    } else if evento == EV_PULSAR_BOTON {
      ArmInactivity(alarms);
    }
  }
}
