/**
 * The button driver (src/drv_botones.c): one debounce state machine per button, fed by
 * press candidates from the external-interrupt glue and by its own alarm timeouts. It
 * reports confirmed presses and releases through the enqueue callback and decides when a
 * button's interrupt line may fire again.
 */
module Buttons {
  import opened Events
  import Alarms
  import Subs = Subscriptions

  const TRP_MS: u32 := 80  // bounce time after a press candidate
  const TEP_MS: u32 := 50  // sampling period while held
  const TRD_MS: u32 := 50  // settling time after the release

  /** FsmEstado_t. */
  datatype FsmState = Esperando | Rebotes | Muestreo | Salida

  /** What one call of `drv_botones_actualizar` does for the button it concerns: its next state,
      the event kinds handed to the enqueue callback (each with the button id as payload), the
      alarm words passed to `svc_alarma_activar` for the key (timer event, button id), and
      whether the line's pending flag is cleared and the line enabled. */
  datatype Reaction = Reaction(next: FsmState, emits: seq<u32>, words: seq<u32>, clearPending: bool, enableLine: bool)

  /** The branches of `drv_botones_actualizar` for button `id` in state `st`. `candidate` says the
      event is ev_PULSAR_BOTON; any other event is taken as a timeout. `pinLevel` is what
      `hal_gpio_leer` returns for the button's pin (0 while pressed). */
  function React(st: FsmState, candidate: bool, pinLevel: u32, id: u8, confirmed: u32, released: u32): (r: Reaction)
    ensures candidate ==> r.emits == [] && !r.clearPending && !r.enableLine && (if st == Esperando then r.next == Rebotes else r.next == st)
    ensures |r.emits| <= 1 && |r.words| <= 2
    ensures r.enableLine <==> !candidate && r.next == Esperando
    ensures r.clearPending <==> !candidate && st != Esperando && r.next == Esperando
  {
    if candidate then
      if st == Esperando then Reaction(Rebotes, [], [Alarms.Codificar(false, TRP_MS, id)], false, false)
      else Reaction(st, [], [], false, false)
    else
      match st
      case Rebotes =>
        if pinLevel == 0 then Reaction(Muestreo, [confirmed], [Alarms.Codificar(true, TEP_MS, id)], false, false)
        else Reaction(Esperando, [released], [], true, true)
      case Muestreo =>
        if pinLevel != 0 then Reaction(Salida, [released], [0, Alarms.Codificar(false, TRD_MS, id)], false, false)
        else Reaction(Muestreo, [], [], false, false)
      case Salida => Reaction(Esperando, [], [], true, true)
      case Esperando => Reaction(Esperando, [], [], false, true)
  }

  /** The notices for a list of event kinds, all with the button id as payload. */
  function Notices(kinds: seq<u32>, id: u8): (r: seq<Notice>)
    ensures |r| == |kinds| && forall i :: 0 <= i < |r| ==> r[i] == Notice(kinds[i], id)
  {
    seq(|kinds|, i requires 0 <= i < |kinds| => Notice(kinds[i], id))
  }

  /** A line is only ever enabled on the way into, or while staying in, `e_esperando`, and its
      pending flag is only cleared right before it is enabled. */
  lemma {:induction false} EnablesOnlyIntoWaiting(st: FsmState, candidate: bool, pinLevel: u32, id: u8, confirmed: u32, released: u32)
    ensures var r := React(st, candidate, pinLevel, id, confirmed, released);
      && (r.enableLine ==> r.next == Esperando && !candidate)
      && (r.clearPending ==> r.enableLine)
      && (r.next == Esperando && st != Esperando ==> r.enableLine)
  {
  }

  /** A press candidate while the machine is busy changes nothing and asks for nothing. */
  lemma {:induction false} BusyIgnoresCandidates(st: FsmState, pinLevel: u32, id: u8, confirmed: u32, released: u32)
    requires st != Esperando
    ensures React(st, true, pinLevel, id, confirmed, released) == Reaction(st, [], [], false, false)
  {
  }

  /** One physical press, held for at least one sampling period and then let go: the candidate,
      the bounce timeout with the pin low, a sample with the pin still low, a sample with the
      pin high and the settling timeout bring the machine back to `e_esperando`, reporting
      exactly one confirmed press and then one release, and enabling the line only at the end. */
  lemma PressCycle(id: u8, confirmed: u32, released: u32)
    ensures var r1 := React(Esperando, true, 0, id, confirmed, released);
      var r2 := React(r1.next, false, 0, id, confirmed, released);
      var r3 := React(r2.next, false, 0, id, confirmed, released);
      var r4 := React(r3.next, false, 1, id, confirmed, released);
      var r5 := React(r4.next, false, 1, id, confirmed, released);
      && r5.next == Esperando
      && r1.emits + r2.emits + r3.emits + r4.emits + r5.emits == [confirmed, released]
      && !r1.enableLine && !r2.enableLine && !r3.enableLine && !r4.enableLine && r5.enableLine
      && r1.words == [Alarms.Codificar(false, TRP_MS, id)]
      && r2.words == [Alarms.Codificar(true, TEP_MS, id)]
      && r4.words == [0, Alarms.Codificar(false, TRD_MS, id)]
  {
    assert [confirmed] + [] + [released] == [confirmed, released];
  }

  /** A bounce that is over before the bounce timeout (pin already high) reports a release and
      reopens the line without reporting a press. */
  lemma {:induction false} NoiseIsReleased(id: u8, pinLevel: u32, confirmed: u32, released: u32)
    requires pinLevel != 0
    ensures var r := React(Rebotes, false, pinLevel, id, confirmed, released);
      r.next == Esperando && r.emits == [released] && r.words == [] && r.enableLine
  {
  }

  /** The driver's state: per-button machine states and interrupt lines, and the events and
      hardware requests it has issued. */
  class ButtonDriver {
    const count: nat                 // NUM_BOTONES
    const states: array<FsmState>    // s_estado_botones
    const lineEnabled: array<bool>   // whether each button's external interrupt line is enabled
    var confirmedEvent: u32          // m_ev_confirmado
    var releasedEvent: u32           // m_ev_soltado
    var timerEvent: u32              // m_ev_retardo
    var halStarted: bool             // hal_ext_int_iniciar(drv_cb) has been called
    var emitted: seq<Notice>         // calls of the enqueue callback drv_botones_isr_callback
    var clears: seq<nat>             // lines passed to hal_ext_int_limpiar_pendiente

    ghost predicate Valid()
    {
      3 <= count <= 4 && states.Length == count && lineEnabled.Length == count
    }

    /** No button whose machine is busy can raise another interrupt. */
    ghost predicate LinesQuiet()
      reads states, lineEnabled
      requires Valid()
    {
      forall i :: 0 <= i < count && states[i] != Esperando ==> !lineEnabled[i]
    }

    /** The board's BUTTONS_NUMBER (3 or 4 pins are listed); the static state is `e_esperando`
        with every line disabled. */
    constructor (n: nat)
      requires 3 <= n <= 4
      ensures Valid() && count == n && fresh(states) && fresh(lineEnabled) && LinesQuiet()
      ensures emitted == [] && clears == [] && !halStarted
    {
      count := n;
      states := new FsmState[n](_ => Esperando);
      lineEnabled := new bool[n](_ => false);
      confirmedEvent, releasedEvent, timerEvent := 0, 0, 0;
      halStarted, emitted, clears := false, [], [];
    }

    /** `drv_cb`, the interrupt glue for line `id`: disables the line first, then enqueues a
        press candidate (ev_PULSAR_BOTON, id). */
    method Isr(id: u8)
      requires Valid() && id < count
      modifies lineEnabled, this`emitted
      ensures !lineEnabled[id] && emitted == old(emitted) + [Notice(EV_PULSAR_BOTON, id)]
      ensures forall j :: 0 <= j < count && j != id ==> lineEnabled[j] == old(lineEnabled[j])
      ensures old(LinesQuiet()) ==> LinesQuiet()
    {
      lineEnabled[id] := false;
      emitted := emitted + [Notice(EV_PULSAR_BOTON, id)];
    }

    /** `drv_botones_iniciar`: records the three events, puts every machine in `e_esperando`,
        subscribes `drv_botones_actualizar` to the press and timer events with priority 0, hands
        `drv_cb` to the interrupt layer and enables every line. A subscription that overflows
        halts, and nothing after it happens. */
    method Iniciar(evPulsar: u32, evSoltar: u32, evTiempo: u32, table: Subs.SubscriptionTable)
      requires Valid() && table.Valid() && !table.halted
      modifies states, lineEnabled, this`confirmedEvent, this`releasedEvent, this`timerEvent, this`halStarted
      modifies table`halted, table`marks, table.table, table.counts
      ensures table.Valid()
      ensures confirmedEvent == evPulsar && releasedEvent == evSoltar && timerEvent == evTiempo
      ensures forall i :: 0 <= i < count ==> states[i] == Esperando
      ensures table.halted ==> halStarted == old(halStarted) && lineEnabled[..] == old(lineEnabled[..])
      ensures !table.halted ==> halStarted && forall i :: 0 <= i < count ==> lineEnabled[i]
      ensures LinesQuiet()
      ensures var first := Subs.SubscribeResult(old(table.Lists()), evPulsar, 0, Subs.BotonesActualizar);
        && (first.None? ==> table.halted && table.Lists() == old(table.Lists()))
        && (first.Some? ==>
              var second := Subs.SubscribeResult(first.value, evTiempo, 0, Subs.BotonesActualizar);
              && (second.None? ==> table.halted && table.Lists() == first.value)
              && (second.Some? ==> !table.halted && table.Lists() == second.value))
    {
      ghost var lists := table.Lists();
      confirmedEvent := evPulsar;
      releasedEvent := evSoltar;
      timerEvent := evTiempo;
      ghost var lines := lineEnabled[..];
      SetAllWaiting();
      assert table.Lists() == lists;
      SubscribeHandler(evPulsar, evTiempo, table);
      assert forall i :: 0 <= i < count ==> states[i] == Esperando;
      if table.halted {
        assert lineEnabled[..] == lines;
        return;
      }
      halStarted := true;
      EnableAll();
    }

    /** The two subscriptions of `drv_botones_iniciar`; the second is not made when the first
        halts. */
    static method SubscribeHandler(evPulsar: u32, evTiempo: u32, table: Subs.SubscriptionTable)
      requires table.Valid() && !table.halted
      modifies table`halted, table`marks, table.table, table.counts
      ensures table.Valid()
      ensures var first := Subs.SubscribeResult(old(table.Lists()), evPulsar, 0, Subs.BotonesActualizar);
        && (first.None? ==> table.halted && table.Lists() == old(table.Lists()))
        && (first.Some? ==>
              var second := Subs.SubscribeResult(first.value, evTiempo, 0, Subs.BotonesActualizar);
              && (second.None? ==> table.halted && table.Lists() == first.value)
              && (second.Some? ==> !table.halted && table.Lists() == second.value))
    {
      table.Subscribe(evPulsar, 0, Subs.BotonesActualizar);
      if table.halted {
        return;
      }
      table.Subscribe(evTiempo, 0, Subs.BotonesActualizar);
    }

    /** The first loop of `drv_botones_iniciar`. */
    method SetAllWaiting()
      requires Valid()
      modifies states
      ensures forall i :: 0 <= i < count ==> states[i] == Esperando
    {
      var i := 0;
      while i < count
        invariant 0 <= i <= count
        invariant forall j :: 0 <= j < i ==> states[j] == Esperando
      {
        states[i] := Esperando;
        i := i + 1;
      }
    }

    /** The last loop of `drv_botones_iniciar`. */
    method EnableAll()
      requires Valid()
      modifies lineEnabled
      ensures forall i :: 0 <= i < count ==> lineEnabled[i]
    {
      var i := 0;
      while i < count
        invariant 0 <= i <= count
        invariant forall j :: 0 <= j < i ==> lineEnabled[j]
      {
        lineEnabled[i] := true;
        i := i + 1;
      }
    }

    /** What one reaction of button `id` leaves behind, between the state before and after it:
        the events of `React` have been enqueued; the alarm words have been passed to
        `svc_alarma_activar` for the key (timer event, id), and the service has halted exactly
        when one of them exhausted the pool; unless it halted, the button's state, pending
        flag and line have been updated as `React` says, and if it halted they have not; no
        other button has changed. */
    twostate predicate Reacted(id: u8, candidate: bool, pinLevel: u32, alarms: Alarms.AlarmService)
      reads this, states, lineEnabled, alarms, alarms.slots
      requires Valid() && id < count
    {
      var r := React(old(states[id]), candidate, pinLevel, id, old(confirmedEvent), old(releasedEvent));
      var after := Alarms.ActivateAll(old(alarms.slots[..]), r.words, old(timerEvent), id);
      && emitted == old(emitted) + Notices(r.emits, id)
      && (alarms.halted <==> after.None?)
      && (after.Some? ==>
            && alarms.slots[..] == after.value
            && states[id] == r.next
            && lineEnabled[id] == (r.enableLine || old(lineEnabled[id]))
            && clears == old(clears) + (if r.clearPending then [id as nat] else []))
      && (after.None? ==> states[id] == old(states[id]) && lineEnabled[id] == old(lineEnabled[id]) && clears == old(clears))
      && (forall j :: 0 <= j < count && j != id ==> states[j] == old(states[j]) && lineEnabled[j] == old(lineEnabled[j]))
    }

    /** `drv_botones_actualizar(evento, aux)` with `pinLevel` the level `hal_gpio_leer` returns
        for the button's pin. The button id is `aux` truncated to 8 bits; an id with no button
        changes nothing. Otherwise ev_PULSAR_BOTON is a press candidate and any other event a
        timeout, and the button reacts as `Reacted` says. If the machines were quiet and a
        candidate for a waiting button finds its line disabled (it came through `drv_cb`), the
        machines are quiet afterwards. */
    method Actualizar(evento: u32, aux: u32, pinLevel: u32, alarms: Alarms.AlarmService)
      requires Valid() && alarms.Valid() && !alarms.halted
      modifies states, lineEnabled, this`emitted, this`clears, alarms`halted, alarms`marks, alarms.slots
      ensures alarms.Valid()
      ensures aux % 256 >= count ==>
        && states[..] == old(states[..]) && lineEnabled[..] == old(lineEnabled[..])
        && emitted == old(emitted) && clears == old(clears)
        && !alarms.halted && alarms.slots[..] == old(alarms.slots[..])
      ensures aux % 256 < count ==> Reacted(aux % 256, evento == EV_PULSAR_BOTON, pinLevel, alarms)
      ensures old(LinesQuiet()) && (evento == EV_PULSAR_BOTON && aux % 256 < count && old(states[aux % 256]) == Esperando ==> !old(lineEnabled[aux % 256]))
        ==> LinesQuiet()
    {
      var id: u8 := aux % 256;
      if id >= count {
        return;
      }
      ghost var st := states[id];
      if evento == EV_PULSAR_BOTON {
        OnCandidate(id, pinLevel, alarms);
      } else {
        OnTimeout(id, pinLevel, alarms);
      }
      EnablesOnlyIntoWaiting(st, evento == EV_PULSAR_BOTON, pinLevel, id, old(confirmedEvent), old(releasedEvent));
    }

    /** The press-candidate branch: a waiting button arms the one-shot bounce alarm (80 ms) and
        moves to `e_rebotes`; a busy one ignores the candidate. The pin is not read. */
    method OnCandidate(id: u8, pinLevel: u32, alarms: Alarms.AlarmService)
      requires Valid() && id < count && alarms.Valid() && !alarms.halted
      modifies states, alarms`halted, alarms`marks, alarms.slots
      ensures alarms.Valid()
      ensures Reacted(id, true, pinLevel, alarms)
    {
      if states[id] == Esperando {
        Arm(alarms, Alarms.Codificar(false, TRP_MS, id), id);
        if alarms.halted {
          return;
        }
        states[id] := Rebotes;
      }
    }

    /** The timeout branch, by the button's state. */
    method OnTimeout(id: u8, pinLevel: u32, alarms: Alarms.AlarmService)
      requires Valid() && id < count && alarms.Valid() && !alarms.halted
      modifies states, lineEnabled, this`emitted, this`clears, alarms`halted, alarms`marks, alarms.slots
      ensures alarms.Valid()
      ensures Reacted(id, false, pinLevel, alarms)
    {
      ghost var s := alarms.slots[..];
      ghost var r := React(states[id], false, pinLevel, id, confirmedEvent, releasedEvent);
      match states[id]
      case Rebotes =>
        if pinLevel == 0 {
          emitted := emitted + [Notice(confirmedEvent, id)];
          Arm(alarms, Alarms.Codificar(true, TEP_MS, id), id);
          if alarms.halted {
            return;
          }
          states[id] := Muestreo;
        } else {
          emitted := emitted + [Notice(releasedEvent, id)];
          clears := clears + [id as nat];
          lineEnabled[id] := true;
          states[id] := Esperando;
        }
      case Muestreo =>
        if pinLevel != 0 {
          emitted := emitted + [Notice(releasedEvent, id)];
          Arm(alarms, 0, id);
          ghost var mid := alarms.slots[..];
          var w := Alarms.Codificar(false, TRD_MS, id);
          Arm(alarms, w, id);
          assert r.words[1..] == [w];
          assert Alarms.ActivateAll(s, r.words, timerEvent, id) == Alarms.ActivateAll(mid, [w], timerEvent, id);
          assert Alarms.ActivateAll(mid, [w], timerEvent, id) == (
            match Alarms.Activate(mid, w, timerEvent, id)
            case None => None
            case Some(t) => Alarms.ActivateAll(t, [], timerEvent, id));
          if alarms.halted {
            return;
          }
          states[id] := Salida;
        }
      case Salida =>
        clears := clears + [id as nat];
        lineEnabled[id] := true;
        states[id] := Esperando;
      case Esperando =>
        lineEnabled[id] := true;
    }

    /** One `svc_alarma_activar(w, timer event, id)` call. */
    method Arm(alarms: Alarms.AlarmService, w: u32, id: u8)
      requires alarms.Valid() && !alarms.halted
      modifies alarms`halted, alarms`marks, alarms.slots
      ensures alarms.Valid()
      ensures alarms.halted <==> Alarms.Activate(old(alarms.slots[..]), w, timerEvent, id).None?
      ensures !alarms.halted ==> alarms.slots[..] == Alarms.Activate(old(alarms.slots[..]), w, timerEvent, id).value
      ensures w == 0 ==> !alarms.halted
    {
      alarms.Activar(w, timerEvent, id);
    }
  }

  /** As `main` wires the driver, the confirmed press is ev_PULSAR_BOTON, the same kind the
      interrupt glue uses for a candidate: a press held through one sampling period reaches the
      queue as two ev_PULSAR_BOTON notices for the same button, the candidate and the
      confirmation, followed by one ev_SOLTAR_BOTON. */
  lemma {:induction false} WiredPressReportsTwice(id: u8)
    ensures var candidate := [Notice(EV_PULSAR_BOTON, id)];
      var r1 := React(Esperando, true, 0, id, EV_PULSAR_BOTON, EV_SOLTAR_BOTON);
      var r2 := React(r1.next, false, 0, id, EV_PULSAR_BOTON, EV_SOLTAR_BOTON);
      var r3 := React(r2.next, false, 0, id, EV_PULSAR_BOTON, EV_SOLTAR_BOTON);
      var r4 := React(r3.next, false, 1, id, EV_PULSAR_BOTON, EV_SOLTAR_BOTON);
      var r5 := React(r4.next, false, 1, id, EV_PULSAR_BOTON, EV_SOLTAR_BOTON);
      candidate + Notices(r1.emits + r2.emits + r3.emits + r4.emits + r5.emits, id)
        == [Notice(EV_PULSAR_BOTON, id), Notice(EV_PULSAR_BOTON, id), Notice(EV_SOLTAR_BOTON, id)]
  {
    PressCycle(id, EV_PULSAR_BOTON, EV_SOLTAR_BOTON);
  }
}
