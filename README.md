# Blink runtime and Beat Hero, modelled in Dafny

This project models the cooperative event runtime of a small microcontroller application and
the rhythm game built on it. It covers:

- the event queue (`rt_fifo.c`);
- the event manager: its subscription table, one iteration of its dispatch loop, and its own
  handler (`rt_GE.c`);
- the software alarm service (`svc_alarmas.c`);
- the button debounce state machines (`drv_botones.c`);
- the nesting critical section (`drv_SC.c`);
- the time driver's unit conversions and periodic tick (`drv_tiempo.c`);
- the monitor pins (`drv_monitor.c`);
- the Beat Hero game (`beat_hero.c`).

The model follows the source's own shape:

- Each source file that keeps static state is a Dafny `class` whose methods update those
  fields and arrays in place. Examples are `Fifo.EventQueue`,
  `Subscriptions.SubscriptionTable`, `Alarms.AlarmService`, `Buttons.ButtonDriver` and
  `BeatHero.Game`.
- Each method is proved against a pure function. Examples are `Alarms.Activate`,
  `Subscriptions.SubscribeResult`, `Buttons.React` and `BeatHero.Next`.
- The rules the source promises are lemmas about those functions.

The hardware reads become method parameters: the pin level, the tick counter, the clock
reading and the random draw. Calls into other drivers become recorded sequences. These
include the enqueue callback, monitor marks, alarm requests, pending-flag clears, watchdog
feeds and idle or deep-sleep requests.

A `while (1)` halt after an overflow becomes a `halted` flag. It is set together with the
monitor mark that precedes the halt, and the halting methods then require `!halted`.

Module layout:

- `Events` in events.dfy: event kinds and records (`rt_evento_t.h`)
- `CriticalSection` in critical_section.dfy: `drv_SC.c`
- `Timing` in timing.dfy: `drv_tiempo.c`
- `Monitor` in monitor.dfy: `drv_monitor.c`
- `Fifo` in fifo.dfy: `rt_fifo.c`
- `Subscriptions` in subscriptions.dfy: the table half of `rt_GE.c`: `suscribir`, `cancelar`, dispatch
- `Dispatcher` in dispatcher.dfy: the run-time half of `rt_GE.c`: `iniciar`, `lanzador`, `actualizar`
- `Alarms` in alarms.dfy: `svc_alarmas.c`
- `Buttons` in buttons.dfy: `drv_botones.c`
- `BeatHero` in beat_hero.dfy: `beat_hero.c`

`rt_GE.c` is split in two modules. This lets the alarm service, the buttons and the game
subscribe to the table without a module cycle.

Where the code and its documentation disagree, the model follows the code:

- `drv_SC_salir_enable_irq` has no guard at depth 0. The model lets the 32-bit counter wrap
  there instead of forbidding the call, so the bracket results are stated for a counter
  that does not wrap.
- Main wires the confirmed press of the buttons to `ev_PULSAR_BOTON`, the same kind the
  interrupt glue uses for a press candidate. A held press therefore reaches the queue as
  two `ev_PULSAR_BOTON` events. The model keeps this wiring, and
  `Buttons.WiredPressReportsTwice` states it.
- `beat_hero.c` passes `ID_ALARMA_RESET` (999) as the `uint8_t` flags of
  `svc_alarma_codificar`, which truncates it to 231. `BeatHero.Flags` does the same
  truncation.
- Monitor ids are `MONITOR_id_t`, 8 bits wide. The queue stores its overflow monitor in such
  a field. The event manager and the alarm service test their 32-bit id for nonzero and then
  pass it to `drv_monitor_marcar`, which keeps its low 8 bits, so an id of 256 passes the test
  and marks monitor 0. The recorded marks carry the id modulo 256 in all three.

## Model

| member | source | states |
|---|---|---|
| `CriticalSection.EnterStep` | src/drv_SC.c:9-13 | entering disables interrupts and increments the 32-bit nesting counter |
| `CriticalSection.ExitStep` | src/drv_SC.c:15-21 | exiting decrements the counter modulo 2^32; interrupts end enabled exactly when the counter reaches zero or they already were |
| `CriticalSection.Section.Enter` | src/drv_SC.c:9-13 | returns the depth before the call; the state becomes `EnterStep` of the old state |
| `CriticalSection.Section.Exit` | src/drv_SC.c:15-21 | the state becomes `ExitStep` of the old state |
| `CriticalSection.EntersNest` | src/drv_SC.c:9-13 | n nested enters reach depth d + n with interrupts disabled |
| `CriticalSection.ExitsUnnest` | src/drv_SC.c:15-21 | n exits from depth d + n return to d; interrupts reopen only at the outermost exit to depth 0 |
| `CriticalSection.BalancedRestores` | src/drv_SC.c:9-21 | n enters followed by n exits restore the starting depth; interrupts end enabled exactly when that depth is 0 |
| `CriticalSection.InnerExitsKeepDisabled` | src/drv_SC.c:15-21 | after n enters, interrupts stay disabled through every exit except the outermost |
| `CriticalSection.BracketRestores` | src/drv_SC.c:9-21 | one enter and one exit leave the depth as it was; interrupts are enabled exactly when that depth is 0 |
| `CriticalSection.RunAppend` | src/drv_SC.c:9-21 | running two sequences of enters and exits is running the first, then the second from where it left off |
| `Timing.PeriodTicksIsProductMod` | src/drv_tiempo.c:99 | the programmed period, computed as two 32-bit products, equals ms × ticks_per_us × 1000 mod 2^32 |
| `Timing.TimeDriver.Iniciar` | src/drv_tiempo.c:21-25 | records the hardware tick rate, marks the driver started and returns true |
| `Timing.TimeDriver.ActualUs` | src/drv_tiempo.c:30-42 | 0 before start or with a zero rate; otherwise the whole microseconds in the tick reading (us × rate ≤ ticks < (us + 1) × rate) |
| `Timing.TimeDriver.ActualMs` | src/drv_tiempo.c:47-50 | the whole milliseconds in `ActualUs` |
| `Timing.TimeDriver.ClocksMonotone` | src/drv_tiempo.c:30-50 | both clocks are monotone in the tick reading |
| `Timing.TimeDriver.PeriodicoMs` | src/drv_tiempo.c:95-106 | nothing before start or without a callback; otherwise stores the event id and the callback, and registers the period ms × rate × 1000 mod 2^32 |
| `Timing.TimeDriver.CallbackApp` | src/drv_tiempo.c:86-93 | each hardware period forwards exactly (stored event id, 0) when a callback is stored, and nothing otherwise |
| `Monitor.HwLevelFromStatus` | src/drv_monitor.c:38-46 | the pin level is 1 exactly when "on" agrees with the active-high setting; 0 with no monitors |
| `Monitor.IdValid` | src/drv_monitor.c:29-36 | id 0 is never valid, and a valid id names a listed monitor (id − 1 < count) |
| `Monitor.StatusFromHwLevel` | src/drv_monitor.c:48-57 | a level reads as "on" exactly when its being nonzero agrees with the active-high setting; "off" with no monitors |
| `Monitor.LevelRoundTrip` | src/drv_monitor.c:38-57 | for either active state, status → level → status is the identity, and so is level → status → level on levels 0 and 1 |
| `Monitor.Monitors.Iniciar` | src/drv_monitor.c:61-71 | every valid monitor reads "off" afterwards; returns the number of monitors |
| `Monitor.Monitors.Establecer` | src/drv_monitor.c:73-82 | returns 1 exactly for a valid id, which then reads back the status written; an invalid id returns 0 and writes nothing; no other pin changes |
| `Monitor.Monitors.Estado` | src/drv_monitor.c:84-94 | returns 0 for an invalid id or a missing output; otherwise 1 and the status read back from the pin |
| `Monitor.Monitors.Marcar` | src/drv_monitor.c:96-105 | a valid monitor reads "on" afterwards; an invalid id changes nothing; no other pin changes |
| `Monitor.Monitors.Desmarcar` | src/drv_monitor.c:107-116 | a valid monitor reads "off" afterwards; an invalid id changes nothing; no other pin changes |
| `Monitor.MarcarTwice` | src/drv_monitor.c:96-105 | marking is idempotent: a second mark leaves every pin as the first left it |
| `Fifo.StatsIndex` | src/rt_fifo.c:58-62 | a kind in range counts against itself; any other kind counts against ev_VOID |
| `Fifo.CountPush` | src/rt_fifo.c:58-62 | one push raises exactly its kind's 32-bit counter by one, and no other counter changes |
| `Fifo.EventQueue.Inicializar` | src/rt_fifo.c:27-33 | the queue becomes empty and initialised with the last-served index reset to 0; the overflow monitor is kept as its 8-bit MONITOR_id_t, the id mod 256; the statistics, their counted history and the stored records are left as they were |
| `Fifo.EventQueue.Push` | src/rt_fifo.c:35-66 | a no-op before initialisation. With 32 pending it marks the stored 8-bit monitor and halts without writing a slot. Otherwise the event is appended at slot (head + count) mod 32, only that slot changes, the statistics follow `CountPush` and the push joins the counted history. The critical section ends as it began |
| `Fifo.EventQueue.Store` | src/rt_fifo.c:46-62 | the write path: one more pending event, in the slot after the last pending one |
| `Fifo.EventQueue.CountStat` | src/rt_fifo.c:58-62 | the push's kind is counted as `CountPush` says, and every statistic stays equal to the number of counted pushes of its kind mod 2^32 |
| `Fifo.EventQueue.Estadisticas` | src/rt_fifo.c:96-98 | the statistic of an in-range kind is the number of pushes counted against it since start-up, modulo 2^32 |
| `Fifo.Slot` | src/rt_fifo.c:55 | every ring position is one of the 32 slots |
| `Fifo.RingStep` | src/rt_fifo.c:77-80 | the slot i + 1 places after head is the slot i places after the advanced head |
| `Fifo.EventQueue.Pop` | src/rt_fifo.c:68-94 | on an empty queue it returns 0 and leaves the events, the read index and the last-served index as they were. Otherwise it returns the oldest event and removes it, the last-served index takes the old read index, the read index advances by 1 mod 32, and the result is the remaining count, or 1 when none remain (always nonzero) |
| `Fifo.RingSlotsDistinct` | src/rt_fifo.c:55 | the slots of the pending events and the next free slot are pairwise different |
| `Fifo.FifoOrderScenario` | src/test.c:70-94 | events come back in push order with their kind and payload |
| `Fifo.ThreeInOrder` | src/test.c:82-93 | three pushes into an empty queue pop back in the same order |
| `Subscriptions.InsertPos` | src/rt_GE.c:159-165 | the shifting loop stops after the last entry with priority ≤ p; every later entry has a greater priority |
| `Subscriptions.InsertSorted` | src/rt_GE.c:159-170 | the list grows by one, with the new entry at the loop's stopping place `InsertPos`; `InsertSortedLayout` states the whole layout |
| `Subscriptions.InsertPosUnique` | src/rt_GE.c:162-165 | the stopping place is determined by the loop's exit condition |
| `Subscriptions.InsertPosSplits` | src/rt_GE.c:162-165 | in a sorted list every entry before the stopping place has priority ≤ p |
| `Subscriptions.InsertedRow` | src/rt_GE.c:159-170 | a row that keeps the entries before the place, holds the new entry there and shifts the rest up one is the insertion |
| `Subscriptions.InsertedPairOrdered` | src/rt_GE.c:162-169 | any two entries of the inserted list are in priority order |
| `Subscriptions.InsertSortedLayout` | src/rt_GE.c:159-170 | the new entry goes after every entry of priority ≤ its own and before every greater one; removing it gives back the old list (stability) |
| `Subscriptions.InsertKeepsSorted` | src/rt_GE.c:162-169 | subscribing keeps a list sorted by priority |
| `Subscriptions.InsertKeepsNoNull` | src/rt_GE.c:145-168 | a list without NULL handlers stays so after subscribing a non-NULL handler |
| `Subscriptions.FindCallback` | src/rt_GE.c:181-186 | the first entry with the handler, or none when no entry has it |
| `Subscriptions.FindCallbackIs` | src/rt_GE.c:181-186 | the first entry with the handler is the one found |
| `Subscriptions.RemoveFirst` | src/rt_GE.c:181-200 | a list without the handler is unchanged; otherwise it is one entry shorter |
| `Subscriptions.RemoveFirstSpec` | src/rt_GE.c:189-200 | cancelling keeps a list sorted and free of NULLs; it shortens the list by one exactly when the handler is present |
| `Subscriptions.CancelUndoesSubscribe` | src/rt_GE.c:143-201 | cancelling a handler just subscribed (absent before) gives back the list |
| `Subscriptions.Invocations` | src/rt_GE.c:94-100 | every call carries the event's kind and payload and a non-NULL handler |
| `Subscriptions.InvocationsOfValidList` | src/rt_GE.c:94-100 | on a list without NULLs, every entry is called exactly once, in table order |
| `Subscriptions.PriorityTiesKeepSubscriptionOrder` | src/rt_GE.c:162-169 | subscribing A(5), B(1), C(5) dispatches B, A, C |
| `Subscriptions.SubscribeResult` | src/rt_GE.c:143-171 | subscribing changes no list but its own kind's |
| `Subscriptions.CancelResult` | src/rt_GE.c:178-201 | cancelling changes no list but its own kind's, and that list never grows |
| `Subscriptions.SubscribeKeepsValid` | src/rt_GE.c:145-170 | subscribing halts exactly on a fifth handler for an in-range kind; otherwise every list stays sorted, NULL-free and at most 4 long |
| `Subscriptions.CancelKeepsValid` | src/rt_GE.c:178-201 | cancelling keeps every list valid |
| `Subscriptions.CancelUndoesSubscribeLists` | src/rt_GE.c:143-201 | subscribe followed by cancel of a new handler gives back all the lists |
| `Subscriptions.SubscriptionTable.Reset` | src/rt_GE.c:43-53 | records the overflow monitor; every list is empty and every slot holds (NULL, 255) |
| `Subscriptions.SubscriptionTable.Subscribe` | src/rt_GE.c:143-171 | a fifth handler marks the monitor (when its 32-bit id is nonzero, with the id's low 8 bits) and halts with the lists unchanged; otherwise the lists become `SubscribeResult`'s |
| `Subscriptions.SubscriptionTable.InsertEntry` | src/rt_GE.c:159-170 | the kind's row becomes `InsertSorted` of the old row, and no other row changes |
| `Subscriptions.SubscriptionTable.ShiftUp` | src/rt_GE.c:159-165 | the shift loop stops at `InsertPos`, moving each later entry up one place |
| `Subscriptions.SubscriptionTable.Cancel` | src/rt_GE.c:178-201 | the lists become `CancelResult`'s; on a removal the count drops by one and the freed slot becomes (NULL, 255) |
| `Subscriptions.SubscriptionTable.RemoveEntry` | src/rt_GE.c:189-200 | the compaction loop removes place i and keeps the order of the rest |
| `Subscriptions.SubscriptionTable.Dispatch` | src/rt_GE.c:91-101 | a kind out of range calls nothing; otherwise each subscriber is called once with (kind, aux), in table order |
| `Dispatcher.InactivityWord` | src/rt_GE.c:73-74 | the inactivity word is nonzero, one-shot, with a 10000 ms delay |
| `Dispatcher.Iniciar` | src/rt_GE.c:40-63 | watchdog at 1 s and the monitor recorded. `rt_GE_actualizar` is the only subscriber of ev_INACTIVIDAD (priority 0) and of ev_PULSAR_BOTON, ev_JUEGO_NUEVO_LED and ev_JUEGO_TIMEOUT (priority 1). Every other list is empty, and no halt is possible |
| `Dispatcher.SubscribeFirst` | src/rt_GE.c:57-61 | one such subscription into an empty list; no other list changes |
| `Dispatcher.ArmInactivity` | src/rt_GE.c:73-74 | the service halts exactly when the key is absent and no slot is free, marking the monitor (when nonzero, low 8 bits) and keeping the slots. Otherwise the slots become `Activate`'s: the key (ev_INACTIVIDAD, 0) is found armed one-shot for 10000 ticks, and every other slot is kept |
| `Dispatcher.InactivityFiresOnceAfterTenSeconds` | src/rt_GE.c:73-74 | the armed inactivity alarm fires once, on tick 10000, and never again |
| `Dispatcher.LanzadorStep` | src/rt_GE.c:77-111 | one loop iteration. The watchdog is fed once. An empty queue gives an idle wait and no call. Otherwise the oldest event is removed and dispatched as `DispatchOf` says. Unless the counter wraps, the critical section ends as it began |
| `Dispatcher.FeedWatchdog` | src/rt_GE.c:80-82 | one feed inside a critical section that restores its state |
| `Dispatcher.ServeOne` | src/rt_GE.c:84-110 | pop inside a critical section, then dispatch or wait idle |
| `Dispatcher.DispatchOf` | src/rt_GE.c:91-101 | no call for a kind out of range; otherwise one call per subscriber with the event's kind and payload, in table order |
| `Dispatcher.Actualizar` | src/rt_GE.c:117-142 | ev_INACTIVIDAD requests deep sleep. A press re-arms the 10000 ms inactivity alarm as `ArmInactivity` says, keeping every other slot, or halts with the mark. Any other kind changes no slot and no mark |
| `Alarms.DecodeDelay` | src/svc_alarmas.c:39-41 | the delay is below 2^24 |
| `Alarms.DecodePeriodic` | src/svc_alarmas.c:43-45 | true exactly when bit 31 of the word is set |
| `Alarms.DecodeFlags` | src/svc_alarmas.c:16 | the bits selected by MASK_FLAGS, shifted down: a value below 2^7. The source has no flags decoder; this is the inverse the round trip is stated with |
| `Alarms.Codificar` | src/svc_alarmas.c:85-93 | the word carries the periodic bit and the delay's low 24 bits; `CodificarRoundTrip` adds the flags |
| `Alarms.CodificarRoundTrip` | src/svc_alarmas.c:39-93 | decoding an encoded word gives the delay mod 2^24, the periodic flag, and the flags mod 2^7 |
| `Alarms.WordRoundTrip` | src/svc_alarmas.c:39-93 | every word is the encoding of its own decoded fields |
| `Alarms.CodificarZeroIsCancel` | src/svc_alarmas.c:85-100 | an encoding is the cancel word 0 exactly for one-shot, delay ≡ 0 mod 2^24, flags ≡ 0 mod 2^7 |
| `Alarms.FindAlarm` | src/svc_alarmas.c:47-56 | the first active slot with the key, or none when no active slot has it |
| `Alarms.FreeSlot` | src/svc_alarmas.c:58-65 | the first inactive slot, or none when all are active |
| `Alarms.FreeSlotIs` | src/svc_alarmas.c:58-65 | the first inactive slot is the one found |
| `Alarms.FindAlarmIs` | src/svc_alarmas.c:47-56 | any first match is the one found |
| `Alarms.FindAlarmUnaffected` | src/svc_alarmas.c:47-56 | replacing a slot that matches the key neither before nor after does not move the key |
| `Alarms.Configured` | src/svc_alarmas.c:128-133 | an armed slot is active with the key, its counter equals its delay, the delay is below 2^24, and it is periodic exactly when bit 31 of the word is set |
| `Alarms.Activate` | src/svc_alarmas.c:95-134 | the pool is exhausted exactly for a nonzero word whose key is absent and with no free slot |
| `Alarms.CancelSpec` | src/svc_alarmas.c:97-108 | cancelling leaves the key inactive, keeps keys unique and changes no other slot; a second cancel changes nothing |
| `Alarms.ArmSpec` | src/svc_alarmas.c:97-133 | an existing key is reconfigured in its own slot, a new key takes the first free slot. Only that slot changes, it holds the periodic flag, delay and counter = delay, and keys stay unique |
| `Alarms.ActivateIsolated` | src/svc_alarmas.c:95-134 | a call on one key does not move any other key's alarm |
| `Alarms.ActivateAll` | src/svc_alarmas.c:95-134 | a series of calls keeps the pool size |
| `Alarms.ActivateAllIsolated` | src/svc_alarmas.c:95-134 | any series of calls on one key leaves every other key where it was |
| `Alarms.AfterTick` | src/svc_alarmas.c:141-162 | a tick never changes the key, the period or the periodic flag, and never activates |
| `Alarms.TickAll` | src/svc_alarmas.c:141-162 | a tick treats each slot on its own |
| `Alarms.FiredNotices` | src/svc_alarmas.c:147-150 | a tick sends at most one notice per slot |
| `Alarms.FiredNoticesFromFiringSlots` | src/svc_alarmas.c:141-150 | a tick sends a (kind, aux) exactly when some slot fires with that key |
| `Alarms.FiredNoticesOncePerFiringSlot` | src/svc_alarmas.c:141-150 | with unique keys, each firing slot's key is sent exactly once, and nothing that is not a firing slot's key is sent |
| `Alarms.TickKeepsUniqueKeys` | src/svc_alarmas.c:141-162 | a tick keeps keys unique |
| `Alarms.InactiveStaysSilent` | src/svc_alarmas.c:142 | an inactive alarm never fires and never changes |
| `Alarms.SilentCountdown` | src/svc_alarmas.c:143-147 | an active alarm with counter c stays silent for c − 1 ticks, counting down |
| `Alarms.FireCountSplit` | src/svc_alarmas.c:141-162 | n1 + n2 ticks fire as often as n1 ticks and then n2 more, and end in the same alarm |
| `Alarms.Period` | src/svc_alarmas.c:128-153 | a periodic alarm's period is its delay, and 1 for a zero delay |
| `Alarms.OnePeriod` | src/svc_alarmas.c:141-162 | a freshly reloaded periodic alarm fires once in one period and is then reloaded as it was |
| `Alarms.PeriodicCadence` | src/svc_alarmas.c:141-162 | a periodic alarm with period P fires n / P times in n ticks (a zero delay fires every tick) |
| `Alarms.OneShotFiresOnce` | src/svc_alarmas.c:141-162 | a one-shot alarm with delay D ≥ 1 fires exactly once, on tick D, and is then inactive |
| `Alarms.PeriodicExample` | src/svc_alarmas.c:85-162 | a 500 ms periodic alarm fires three times in 1500 ticks |
| `Alarms.AlarmService.Iniciar` | src/svc_alarmas.c:67-83 | records the configuration and deactivates every slot, leaving its other fields. It subscribes the service to the tick event with priority 0. Unless that halts, and when the time driver is started and a callback is given, it programs a 1 ms tick forwarding the tick event; otherwise the time driver is untouched |
| `Alarms.StartTick` | src/svc_alarmas.c:81-82 | the subscription, then the periodic tick; the time driver is untouched after a halt, before start or without a callback |
| `Alarms.AlarmService.DeactivateAll` | src/svc_alarmas.c:72-74 | every slot becomes inactive with its other fields kept |
| `Alarms.AlarmService.BuscarAlarma` | src/svc_alarmas.c:47-56 | the loop returns `FindAlarm` |
| `Alarms.AlarmService.BuscarSlotLibre` | src/svc_alarmas.c:58-65 | the loop returns `FreeSlot` |
| `Alarms.AlarmService.Activar` | src/svc_alarmas.c:95-134 | on exhaustion it marks the monitor (when its 32-bit id is nonzero, with the id's low 8 bits) and halts with the slots untouched; otherwise the slots become `Activate`'s |
| `Alarms.AlarmService.Actualizar` | src/svc_alarmas.c:136-163 | another event changes nothing. A tick makes the slots `TickAll`'s and notifies the firing keys in slot order when a callback is set |
| `Alarms.AlarmService.TickSlot` | src/svc_alarmas.c:142-160 | one pass: the slot ticks, is notified if it fires, and no other slot changes |
| `Buttons.Notices` | src/drv_botones.c:109-133 | each reported kind is enqueued with the button id as payload, in order |
| `Buttons.React` | src/drv_botones.c:82-157 | a candidate never reports, clears or enables, and moves only `e_esperando` (to `e_rebotes`). Each event gives at most one report and two alarm calls. A line is enabled exactly on a timeout that ends in `e_esperando`, and its pending flag is cleared exactly when that timeout ends a busy state |
| `Buttons.EnablesOnlyIntoWaiting` | src/drv_botones.c:82-157 | a line is enabled only on entering or staying in `e_esperando`, never on a candidate. Its pending flag is cleared only together with enabling it, and every return to `e_esperando` enables it |
| `Buttons.BusyIgnoresCandidates` | src/drv_botones.c:87-99 | a candidate in a busy state changes nothing and requests nothing |
| `Buttons.PressCycle` | src/drv_botones.c:87-150 | candidate, bounce timeout (pressed), a sample (held), a sample (released) and the settling timeout report one press, then one release. They arm 80 ms, periodic 50 ms, then cancel and 50 ms, and enable the line only at the end |
| `Buttons.NoiseIsReleased` | src/drv_botones.c:117-125 | a bounce over before the timeout reports a release, arms nothing and reopens the line |
| `Buttons.WiredPressReportsTwice` | src/drv_botones.c:55-109 | with main's wiring, a held press enqueues ev_PULSAR_BOTON twice and then ev_SOLTAR_BOTON |
| `Buttons.ButtonDriver.Isr` | src/drv_botones.c:48-56 | disables the button's line and enqueues a press candidate; no other line changes; the lines stay quiet |
| `Buttons.ButtonDriver.Iniciar` | src/drv_botones.c:58-80 | records the events and puts every machine in `e_esperando`. It subscribes to the press event, then (unless that halted) the timer event, and the lists and halting follow `SubscribeResult`. Unless a subscription halts, it starts the interrupt layer and enables every line. The lines stay quiet |
| `Buttons.ButtonDriver.SubscribeHandler` | src/drv_botones.c:73-74 | the two subscriptions, the second only when the first did not halt |
| `Buttons.ButtonDriver.SetAllWaiting` | src/drv_botones.c:68-70 | every machine is in `e_esperando` |
| `Buttons.ButtonDriver.EnableAll` | src/drv_botones.c:77-79 | every line is enabled |
| `Buttons.ButtonDriver.Actualizar` | src/drv_botones.c:82-157 | an id (aux truncated to 8 bits) with no button changes nothing. Otherwise only that button reacts as `React` says: its events, its alarm key (timer event, id), its line and pending flag. If the lines were quiet and the candidate came through the interrupt glue, they stay quiet |
| `Buttons.ButtonDriver.OnCandidate` | src/drv_botones.c:87-99 | the candidate branch reacts as `React` says |
| `Buttons.ButtonDriver.OnTimeout` | src/drv_botones.c:101-156 | the timeout branch reacts as `React` says |
| `Buttons.ButtonDriver.Arm` | src/drv_botones.c:94-140 | one alarm call for the button's key; it halts exactly when the pool is exhausted |
| `BeatHero.TimingScore` | src/beat_hero.c:237-245 | the score is in [−1, 2] and is 0 for a zero-length bar |
| `BeatHero.PercentNoWrap` | src/beat_hero.c:238-240 | without wrap-around, the percentage is elapsed whole ms × 100 / bar length |
| `BeatHero.LaterPressScoresNoMore` | src/beat_hero.c:237-245 | without wrap-around, a later press in a bar never scores more |
| `BeatHero.OnTheBeatScoresTwo` | src/beat_hero.c:241 | a press in the first tenth of the bar scores 2 |
| `BeatHero.Evaluate` | src/beat_hero.c:247-258 | a hit adds the timing score, clears exactly the pressed note and keeps every other bit. An empty slot or a wrong button costs one point and leaves the window. Nothing else changes |
| `BeatHero.ClearNote` | src/beat_hero.c:254 | clearing a set bit removes it and keeps the other bits |
| `BeatHero.NextNote` | src/beat_hero.c:215-221 | the new note is in 0..3; level 1 gives 1 or 2; level 2 gives at most 2 |
| `BeatHero.Advance` | src/beat_hero.c:213-222 | the window moves one slot towards the player, a new note enters, and nothing else changes |
| `BeatHero.LevelAfterBar` | src/beat_hero.c:135-139 | from a level in 1..4 the level stays or rises by one, never past 4, and changes only at a positive multiple of 5 bars |
| `BeatHero.NextBar` | src/beat_hero.c:131-143 | state and scores are kept, one more bar starts at the current time, the window shifts with a note 0..3 entering, and the bar length changes only at level 4, to the scaled length |
| `BeatHero.React` | src/beat_hero.c:76-178 | the state moves only INIT→JUEGO→RESULTADO→INIT, the high score never falls, and the game's own requests never touch the inactivity alarm |
| `BeatHero.Next` | src/beat_hero.c:67-180 | the same cycle of states; the first request is the inactivity re-arm exactly for a press or release during a game |
| `BeatHero.Reset` | src/beat_hero.c:201-211 | score 0, no bars, level 1, 1000 ms bars, an empty window, and the reset alarm cancelled; state and high score are kept |
| `BeatHero.Finish` | src/beat_hero.c:182-199 | the result screen with the game tick cancelled; the high score takes the score only on a victory that beats it |
| `BeatHero.NextKeepsInv` | src/beat_hero.c:67-180 | every event keeps the game's invariant: window notes 0..3, level 1..4, at most 30 bars, a non-negative high score, and a score of at least −5 during a game |
| `BeatHero.GameKeepsInv` | src/beat_hero.c:111-154 | the same for the in-game events |
| `BeatHero.BootSatisfiesInv` | src/beat_hero.c:51-65 | start-up leaves variables satisfying the invariant, whatever they were |
| `BeatHero.StateTransitions` | src/beat_hero.c:91-175 | INIT→JUEGO exactly on a press of button 0 or 1. JUEGO→RESULTADO exactly on a press of 2 or 3, a tick after 30 bars or with a score below −5, or a press that takes the score below −5. RESULTADO→INIT exactly on the reset timeout. No other transitions |
| `BeatHero.HighScoreOnlyRisesOnVictory` | src/beat_hero.c:190-193 | the high score never falls and changes only on a victorious tick, to the score |
| `BeatHero.LevelRisesEveryFiveBars` | src/beat_hero.c:135-139 | the level stays in 1..4 and rises, by one, only on a tick at a positive multiple of 5 bars |
| `BeatHero.EndingCancelsTick` | src/beat_hero.c:182-185 | every way into the result screen cancels the game tick |
| `BeatHero.StartingIsFresh` | src/beat_hero.c:96-108 | starting gives a fresh game with 1000 ms bars, cancels the demo and reset alarms and arms the first tick |
| `BeatHero.ReleaseBeforeExpiryCancelsReset` | src/beat_hero.c:158-167 | pressing 2/3 arms a one-shot 3000 ms reset alarm; releasing before expiry leaves it inactive, so it never fires |
| `BeatHero.SubscribeAll` | src/beat_hero.c:56-60 | a series of subscriptions that does not halt keeps one list per event kind |
| `BeatHero.SubscribeAllAppend` | src/beat_hero.c:56-60 | subscribing to a + b is subscribing to a, then (unless that halted) to b |
| `BeatHero.GameSubscriptionsFit` | src/beat_hero.c:56-60 | with room in each of the four lists, the game's handler joins each in priority order and no other list changes |
| `BeatHero.Game.Iniciar` | src/beat_hero.c:51-65 | attract mode and zero high score; unless a subscription halts, a fresh game and the cancel-reset and demo requests |
| `BeatHero.Game.Arrancar` | src/beat_hero.c:62-64 | a fresh game, then the 500 ms demo alarm |
| `BeatHero.Game.SubscribeGame` | src/beat_hero.c:56-60 | the four subscriptions, halting exactly as `SubscribeAll` says |
| `BeatHero.Game.SubscribePair` | src/beat_hero.c:56-60 | two consecutive subscriptions |
| `BeatHero.Game.Actualizar` | src/beat_hero.c:67-180 | the variables and the alarm requests follow `Next`: during a game a press or release re-arms the inactivity alarm, then the state reacts |
| `BeatHero.Game.OnAttractEvent` | src/beat_hero.c:78-109 | the e_INIT case follows `React` |
| `BeatHero.Game.OnGameEvent` | src/beat_hero.c:111-154 | the e_JUEGO case follows `React` |
| `BeatHero.Game.OnResultEvent` | src/beat_hero.c:156-176 | the e_RESULTADO case follows `React` |
| `BeatHero.Game.FinalizarPartida` | src/beat_hero.c:182-199 | follows `Finish` |
| `BeatHero.Game.ReiniciarVariablesJuego` | src/beat_hero.c:201-211 | follows `Reset` |
| `BeatHero.Game.AvanzarCompas` | src/beat_hero.c:213-222 | follows `Advance` |
| `BeatHero.Game.ProgramarSiguienteTick` | src/beat_hero.c:232-235 | requests a one-shot tick one bar long |
| `BeatHero.Game.EvaluarJugada` | src/beat_hero.c:247-258 | follows `Evaluate` |

## Left out

- Hardware layers (`hal_*`, the LPC and nRF ports), the watchdog, power modes, sound, LEDs
  and the random source are not part of this model. They appear only as recorded requests
  or as parameters.
- Interrupts interleaving with the main loop are not modelled. Pushes, pops and alarm calls
  are atomic steps, and the critical section is only its counter and interrupt gate.
- `rt_GE_lanzador` is modelled as one loop iteration (`Dispatcher.LanzadorStep`), not as the
  infinite loop. The dispatched handlers are returned as calls, not executed.
- `while (1)` halts are a `halted` flag. Every mutating method then requires `!halted`, so
  nothing is said about a halted system.
- Fifo.EventQueue.Push: on overflow the source has already incremented the pending count
  (to 33) before halting. The model leaves the count at 32, because the system is halted.
- The time driver's busy-wait loops (`drv_tiempo_esperar_ms`, `drv_tiempo_esperar_hasta_ms`)
  only poll the clock and are not modelled. The tick counter is a parameter, assumed to be
  a 64-bit `Tiempo_us_t` reading; `drv_tiempo.h` is not part of this model.
- Timing.TimeDriver.ActualMs: the result is cast to `Tiempo_ms_t`, whose width is declared in
  `drv_tiempo.h`, which is not part of this model. The model assumes the type holds every
  value and applies no truncation.
- Queue timestamps are an opaque parameter of `Push`.
- `rt_FIFO_estadisticas` indexes its array without a bounds check, so
  `Fifo.EventQueue.Estadisticas` requires a kind in range.
- Monitor.Monitors.constructor requires fewer than 255 monitors, because the `uint8_t` loop
  counter of `drv_monitor_iniciar` would never terminate at 255.
- The bit masks of alarm words and button notes are written as the equivalent arithmetic on
  the value: remainder, quotient and sum over disjoint fields.
- BeatHero.NextBar: the level-4 bar length `s_duracion_compas_ms * 0.9f` is floating point.
  It is a parameter (`scaled`) of the game step, so no property depends on its value.
- BeatHero.Game.Iniciar: its contract gives the game variables and requests but does not
  restate the subscription lists. Those are stated by `BeatHero.Game.SubscribeGame` and
  `BeatHero.GameSubscriptionsFit`.
- The score is an unbounded integer. The source's `int32_t` cannot overflow within 30 bars,
  since each press changes the score by at most 2 and the game ends below −5.
- The LED display (`actualizar_leds_display`) and the attract-mode LED rotation are left out;
  they only write LEDs.
- The game's alarm calls are recorded as requests rather than applied to the alarm service.
  `BeatHero.ReleaseBeforeExpiryCancelsReset` applies the reset pair to `Alarms.Activate`.
- Buttons.ButtonDriver.Actualizar: when the alarm pool is exhausted, the source has already
  enqueued the events of that reaction. The model keeps them, but says nothing further about
  the halted state.
- `app_jugar.c`, `beat_hero_backup.c`, `beat_hero_copia.c`, `svc_SC.c` and `test.c` are not
  part of this model. The queue order exercised by `test.c` is stated by
  `Fifo.FifoOrderScenario`.
