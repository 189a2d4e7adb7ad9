/**
 * The Beat Hero game (src/beat_hero.c): an attract mode, a 30-bar game in which the player
 * presses button 0 or 1 in time with the note shown two bars earlier, and a result screen
 * from which holding button 2 or 3 for three seconds returns to the attract mode.
 *
 * The game's variables are a `Game` object whose methods follow the source's functions; each
 * is proved against a pure function on a snapshot of those variables (`GameVars`), and the
 * game's rules are lemmas about those functions. Alarm requests (`svc_alarma_activar` calls)
 * are recorded in order; what the alarm service does with each is `Alarms.Activate`.
 */
module BeatHero {
  import opened Events
  import Alarms
  import Subs = Subscriptions
  import Dispatcher
  import Timing

  /** A reading of the microsecond clock (`Tiempo_us_t`, 64 bits). */
  type u64 = x: int | 0 <= x < Timing.U64_MODULUS

  const MAX_COMPASES_PARTIDA: nat := 30
  const SCORE_MIN_FAIL: int := -5
  const BPM_INICIAL: u32 := 60
  const MS_POR_MINUTO: u32 := 60000
  const TIEMPO_REINICIO_MS: u32 := 3000
  const DEMO_MS: u32 := 500
  const DURACION_INICIAL_MS: u32 := 1000

  /** The payloads that tell the game's alarms apart. */
  const ID_ALARMA_RESET: u32 := 999
  const ID_ALARMA_TICK: u32 := 100
  const ID_ALARMA_DEMO: u32 := 200

  /** The priority of every subscription of the game. */
  const GAME_PRIORITY: u8 := 1

  /** The kinds `beat_hero_iniciar` subscribes `beat_hero_actualizar` to, in call order. */
  const GAME_KINDS: seq<u32> := [EV_JUEGO_NUEVO_LED, EV_PULSAR_BOTON, EV_SOLTAR_BOTON, EV_JUEGO_TIMEOUT]

  datatype GameState = Init | Juego | Resultado

  /** One call `svc_alarma_activar(word, kind, aux)`; word 0 cancels. */
  datatype AlarmRequest = AlarmRequest(word: u32, kind: u32, aux: u32)

  /** `svc_alarma_codificar` takes its flags as `uint8_t`: an id above 255 is truncated. */
  function Flags(id: u32): u8
  {
    id % 256
  }

  /** Arms the next game tick: one-shot, one bar long. */
  function TickRequest(durationMs: u32): AlarmRequest
  {
    AlarmRequest(Alarms.Codificar(false, durationMs, Flags(ID_ALARMA_TICK)), EV_JUEGO_NUEVO_LED, ID_ALARMA_TICK)
  }

  const DEMO_REQUEST: AlarmRequest :=
    AlarmRequest(Alarms.Codificar(false, DEMO_MS, Flags(ID_ALARMA_DEMO)), EV_JUEGO_NUEVO_LED, ID_ALARMA_DEMO)
  const CANCEL_DEMO: AlarmRequest := AlarmRequest(0, EV_JUEGO_NUEVO_LED, ID_ALARMA_DEMO)
  const CANCEL_TICK: AlarmRequest := AlarmRequest(0, EV_JUEGO_NUEVO_LED, ID_ALARMA_TICK)
  const ARM_RESET: AlarmRequest :=
    AlarmRequest(Alarms.Codificar(false, TIEMPO_REINICIO_MS, Flags(ID_ALARMA_RESET)), EV_JUEGO_TIMEOUT, ID_ALARMA_RESET)
  const CANCEL_RESET: AlarmRequest := AlarmRequest(0, EV_JUEGO_TIMEOUT, ID_ALARMA_RESET)

  /** Re-arms the system's 10 s inactivity alarm, as `rt_GE_actualizar` does on a press. */
  const KEEP_AWAKE: AlarmRequest := AlarmRequest(Dispatcher.InactivityWord(), EV_INACTIVIDAD, 0)

  /** The game's static variables: s_estado, s_score, s_high_score, s_compases_jugados,
      s_duracion_compas_ms, s_tiempo_inicio_compas, s_nivel_dificultad and compas[3]. */
  datatype GameVars = GameVars(state: GameState, score: int, highScore: int, bars: nat,
                               duration: u32, barStart: u64, level: u8, compas: seq<u8>)

  /** The values the variables have before `beat_hero_iniciar`. */
  const STATIC_VARS: GameVars := GameVars(Init, 0, 0, 0, DURACION_INICIAL_MS, 0, 1, [0, 0, 0])

  /** What one call leaves behind: the variables, and the alarm requests it made, in order. */
  datatype Outcome = Outcome(after: GameVars, requests: seq<AlarmRequest>)

  /** What the game keeps true between events: the window holds notes 0..3; the level is 1..4;
      at most 30 bars are played; the high score is never negative; the attract mode holds a
      fresh game; a running game's score is at least -5, and one that ended lost by at most one
      more point. */
  ghost predicate Inv(v: GameVars)
  {
    && |v.compas| == 3 && (forall i :: 0 <= i < 3 ==> v.compas[i] <= 3)
    && 1 <= v.level <= 4 && v.bars <= MAX_COMPASES_PARTIDA && v.highScore >= 0
    && v.score >= SCORE_MIN_FAIL - 1
    && (v.state == Init ==> v.score == 0 && v.bars == 0 && v.level == 1)
    && (v.state == Juego ==> v.score >= SCORE_MIN_FAIL)
  }

  /** `calcular_puntuacion(now)` for a bar that started at `start` and lasts `duration` ms: the
      elapsed time is taken modulo 2^64, converted to whole ms and truncated to 32 bits, and
      the percentage of the bar is computed in 32 bits. A bar of length 0 scores 0; otherwise
      within 10% scores 2, within 20% scores 1, within 40% scores 0, and later costs a point. */
  function TimingScore(now: u64, start: u64, duration: u32): (pts: int)
    ensures -1 <= pts <= 2
    ensures duration == 0 ==> pts == 0
  {
    if duration == 0 then 0
    else
      var pct := Percent(now, start, duration);
      if pct <= 10 then 2 else if pct <= 20 then 1 else if pct <= 40 then 0 else -1
  }

  /** `pct`: how far into the bar `now` is, in percent, with the source's 32-bit arithmetic. */
  function Percent(now: u64, start: u64, duration: u32): nat
    requires duration > 0
  {
    var diffMs := (((now - start) % Timing.U64_MODULUS) / 1000) % U32_MODULUS;
    ((diffMs * 100) % U32_MODULUS) / duration
  }

  lemma {:induction false} DivMonotone(a: nat, b: nat, d: nat)
    requires a <= b && d > 0
    ensures a / d <= b / d
  {
    var q, r := a / d, b / d;
    assert d * q <= a;
    assert b < d * (r + 1);
    if q > r {
      MulLe(r + 1, q, d);
      assert false;
    }
  }

  lemma {:induction false} MulLe(x: nat, y: nat, d: nat)
    requires x <= y
    ensures d * x <= d * y
  {
  }

  /** With no wrap-around, `pct` is the elapsed whole milliseconds times 100 over the bar. */
  lemma {:induction false} PercentNoWrap(now: u64, start: u64, duration: u32)
    requires start <= now && duration > 0
    requires (now - start) / 1000 * 100 < U32_MODULUS
    ensures Percent(now, start, duration) == (now - start) / 1000 * 100 / duration
  {
    var diffMs := (now - start) / 1000;
    assert (now - start) % Timing.U64_MODULUS == now - start;
    assert diffMs % U32_MODULUS == diffMs;
    assert (diffMs * 100) % U32_MODULUS == diffMs * 100;
  }

  /** Without wrap-around, a later press never scores more than an earlier one in the same bar. */
  lemma {:induction false} LaterPressScoresNoMore(start: u64, n1: u64, n2: u64, duration: u32)
    requires start <= n1 <= n2
    requires (n2 - start) / 1000 * 100 < U32_MODULUS
    ensures TimingScore(n2, start, duration) <= TimingScore(n1, start, duration)
  {
    if duration > 0 {
      var d1, d2 := (n1 - start) / 1000, (n2 - start) / 1000;
      DivMonotone(n1 - start, n2 - start, 1000);
      assert d1 * 100 <= d2 * 100;
      PercentNoWrap(n1, start, duration);
      PercentNoWrap(n2, start, duration);
      DivMonotone(d1 * 100, d2 * 100, duration);
    }
  }

  /** A press in the first tenth of the bar scores 2. */
  lemma {:induction false} OnTheBeatScoresTwo(start: u64, now: u64, duration: u32)
    requires start <= now && duration > 0
    requires (now - start) / 1000 * 100 <= 10 * duration
    requires (now - start) / 1000 * 100 < U32_MODULUS
    ensures TimingScore(now, start, duration) == 2
  {
    var d := (now - start) / 1000;
    PercentNoWrap(now, start, duration);
    DivMonotone(d * 100, 10 * duration, duration);
    assert 10 * duration / duration == 10;
  }

  /** Whether the window slot `c` holds the note of button mask `mask` (`c & mask`). */
  predicate HasNote(c: u8, mask: u8)
    requires mask == 1 || mask == 2
  {
    (c / mask) % 2 == 1
  }

  /** `evaluar_jugada(mask)` for a press at `now` (mask 1 is button 0, mask 2 button 1). A press
      that finds its note in the oldest slot of the window scores by timing and clears that
      note and no other bit; any other press, an empty slot included, costs a point and leaves
      the window alone. Nothing else changes. */
  function Evaluate(v: GameVars, mask: u8, now: u64): (w: GameVars)
    requires |v.compas| == 3 && (mask == 1 || mask == 2)
    ensures w == v.(score := w.score, compas := w.compas)
    ensures |w.compas| == 3 && w.compas[1] == v.compas[1] && w.compas[2] == v.compas[2]
    ensures HasNote(v.compas[0], mask) ==>
      && w.score == v.score + TimingScore(now, v.barStart, v.duration)
      && !HasNote(w.compas[0], mask)
      && HasNote(w.compas[0], 3 - mask) == HasNote(v.compas[0], 3 - mask)
      && w.compas[0] / 4 == v.compas[0] / 4
    ensures !HasNote(v.compas[0], mask) ==> w == v.(score := v.score - 1)
  {
    var c := v.compas[0];
    if c == 0 then v.(score := v.score - 1)
    else if HasNote(c, mask) then
      ClearNote(c, mask);
      v.(score := v.score + TimingScore(now, v.barStart, v.duration), compas := v.compas[0 := c - mask])
    else v.(score := v.score - 1)
  }

  /** `c &= ~mask` when the bit is set is `c - mask`: it clears that bit and keeps the others. */
  lemma {:induction false} ClearNote(c: u8, mask: u8)
    requires (mask == 1 || mask == 2) && HasNote(c, mask)
    ensures c >= mask
    ensures !HasNote(c - mask, mask)
    ensures HasNote(c - mask, 3 - mask) == HasNote(c, 3 - mask)
    ensures (c - mask) / 4 == c / 4
  {
    if mask == 1 {
      assert c % 2 == 1;
      assert (c - 1) / 2 == c / 2;
    } else {
      assert (c / 2) % 2 == 1;
      assert (c - 2) / 2 == c / 2 - 1;
      assert (c - 2) % 2 == c % 2;
    }
  }

  /** The note `avanzar_compas` draws for the newest slot from `rnd`: at level 1 always button
      0 or 1 (above 50 or not); at level 2 a rest below 20, button 0 below 60, else button 1;
      from level 3 a rest below 15, then 0, 1 and both buttons up to 45, 75 and beyond. */
  function NextNote(level: u8, rnd: u32): (p: u8)
    ensures p <= 3
    ensures level == 1 ==> p == 1 || p == 2
    ensures level == 2 ==> p <= 2
  {
    if level == 1 then (if rnd > 50 then 1 else 2)
    else if level == 2 then (if rnd < 20 then 0 else if rnd < 60 then 1 else 2)
    else if rnd < 15 then 0 else if rnd < 45 then 1 else if rnd < 75 then 2 else 3
  }

  /** `avanzar_compas`: the window moves one slot towards the player and a new note enters. */
  function Advance(v: GameVars, rnd: u32): (w: GameVars)
    requires |v.compas| == 3
    ensures w == v.(compas := w.compas)
    ensures |w.compas| == 3 && w.compas[0] == v.compas[1] && w.compas[1] == v.compas[2]
    ensures w.compas[2] == NextNote(v.level, rnd)
  {
    v.(compas := [v.compas[1], v.compas[2], NextNote(v.level, rnd)])
  }

  /** `reiniciar_variables_juego`: a fresh game (score 0, no bars, level 1, 1000 ms bars, an
      empty window), with any pending reset alarm cancelled. State and high score are kept. */
  function Reset(v: GameVars): (o: Outcome)
    ensures o.after == v.(score := 0, bars := 0, level := 1, duration := DURACION_INICIAL_MS, compas := [0, 0, 0])
    ensures o.requests == [CANCEL_RESET]
  {
    Outcome(v.(score := 0, bars := 0, level := 1, duration := DURACION_INICIAL_MS, compas := [0, 0, 0]), [CANCEL_RESET])
  }

  /** `finalizar_partida(exito)`: the result screen, with the game tick cancelled; the high
      score takes the score only on a victory that beats it. */
  function Finish(v: GameVars, exito: bool): (o: Outcome)
    ensures o.after == v.(state := Resultado, highScore := o.after.highScore)
    ensures o.after.highScore == (if exito && v.score > v.highScore then v.score else v.highScore)
    ensures o.requests == [CANCEL_TICK]
  {
    Outcome(v.(state := Resultado, highScore := if exito && v.score > v.highScore then v.score else v.highScore), [CANCEL_TICK])
  }

  /** The level after a tick that finds `bars` bars played: one up on a positive multiple of 5
      (8-bit), capped at 4. */
  function LevelAfterBar(level: u8, bars: nat): (l: u8)
    ensures 1 <= level <= 4 ==> level <= l <= level + 1 && l <= 4
    ensures l != level ==> bars % 5 == 0 && bars > 0
  {
    if bars % 5 == 0 && bars > 0 then
      var up := (level + 1) % 256;
      if up > 4 then 4 else up
    else level
  }

  /** A game tick that plays on: the window advances, the level may rise, and at level 4 the bar
      length becomes `scaled` (the source's `duracion * 0.9f`); the bar starts at `now`. */
  function NextBar(v: GameVars, now: u64, rnd: u32, scaled: u32): (w: GameVars)
    requires |v.compas| == 3
    ensures w.state == v.state && w.score == v.score && w.highScore == v.highScore
    ensures w.bars == v.bars + 1 && w.barStart == now
    ensures |w.compas| == 3 && w.compas[0] == v.compas[1] && w.compas[1] == v.compas[2] && w.compas[2] <= 3
    ensures w.duration != v.duration ==> w.level == 4 && w.duration == scaled
  {
    var a := Advance(v, rnd);
    var lvl := LevelAfterBar(v.level, v.bars);
    var dur := if v.bars % 5 == 0 && v.bars > 0 && lvl == 4 then scaled else v.duration;
    a.(level := lvl, duration := dur, barStart := now, bars := v.bars + 1)
  }

  /** The switch of `beat_hero_actualizar(evento, aux)`, given the clock `now`, the random
      draw `rnd` and the scaled bar length `scaled`. */
  function React(v: GameVars, evento: u32, aux: u32, now: u64, rnd: u32, scaled: u32): (o: Outcome)
    requires |v.compas| == 3
    ensures o.after.state == v.state || (v.state, o.after.state) in {(Init, Juego), (Juego, Resultado), (Resultado, Init)}
    ensures o.after.highScore >= v.highScore
    ensures forall i :: 0 <= i < |o.requests| ==> o.requests[i].kind != EV_INACTIVIDAD
  {
    match v.state
    case Init =>
      var demo := if evento == EV_JUEGO_NUEVO_LED && aux == ID_ALARMA_DEMO then [DEMO_REQUEST] else [];
      if evento == EV_PULSAR_BOTON && (aux == 0 || aux == 1) then
        var w := Reset(v.(state := Juego)).after.(duration := MS_POR_MINUTO / BPM_INICIAL);
        Outcome(w, demo + [CANCEL_DEMO, CANCEL_RESET, TickRequest(w.duration)])
      else Outcome(v, demo)
    case Juego =>
      if evento == EV_PULSAR_BOTON && (aux == 2 || aux == 3) then Finish(v, false)
      else if evento == EV_JUEGO_NUEVO_LED && aux == ID_ALARMA_TICK then
        if v.bars >= MAX_COMPASES_PARTIDA then Finish(v, true)
        else if v.score < SCORE_MIN_FAIL then Finish(v, false)
        else
          var w := NextBar(v, now, rnd, scaled);
          Outcome(w, [TickRequest(w.duration)])
      else if evento == EV_PULSAR_BOTON && aux <= 1 then
        var e := Evaluate(v, if aux == 0 then 1 else 2, now);
        if e.score < SCORE_MIN_FAIL then Finish(e, false) else Outcome(e, [])
      else Outcome(v, [])
    case Resultado =>
      if evento == EV_PULSAR_BOTON && (aux == 2 || aux == 3) then Outcome(v, [ARM_RESET])
      else if evento == EV_SOLTAR_BOTON && (aux == 2 || aux == 3) then Outcome(v, [CANCEL_RESET])
      else if evento == EV_JUEGO_TIMEOUT && aux == ID_ALARMA_RESET then
        Outcome(Reset(v).after.(state := Init), [CANCEL_RESET, DEMO_REQUEST])
      else Outcome(v, [])
  }

  /** `beat_hero_actualizar(evento, aux)`: during a game, any press or release first re-arms
      the inactivity alarm; then the state's reaction. */
  function Next(v: GameVars, evento: u32, aux: u32, now: u64, rnd: u32, scaled: u32): (o: Outcome)
    requires |v.compas| == 3
    ensures o.after.state == v.state || (v.state, o.after.state) in {(Init, Juego), (Juego, Resultado), (Resultado, Init)}
    ensures (|o.requests| > 0 && o.requests[0] == KEEP_AWAKE) <==>
      v.state == Juego && (evento == EV_PULSAR_BOTON || evento == EV_SOLTAR_BOTON)
  {
    var awake := if v.state == Juego && (evento == EV_PULSAR_BOTON || evento == EV_SOLTAR_BOTON) then [KEEP_AWAKE] else [];
    var o := React(v, evento, aux, now, rnd, scaled);
    Outcome(o.after, awake + o.requests)
  }

  /** Every event keeps the game's invariant, whatever the clock, the draw and the scaled
      bar length. */
  lemma NextKeepsInv(v: GameVars, evento: u32, aux: u32, now: u64, rnd: u32, scaled: u32)
    requires Inv(v)
    ensures Inv(Next(v, evento, aux, now, rnd, scaled).after)
  {
    assert Next(v, evento, aux, now, rnd, scaled).after == React(v, evento, aux, now, rnd, scaled).after;
    match v.state
    case Init =>
    case Juego => GameKeepsInv(v, evento, aux, now, rnd, scaled);
    case Resultado =>
  }

  /** During a game: a tick keeps the level, the bar count and the window in range, and a press
      either keeps the score at -5 or above or ends the game one point lower at most. */
  lemma GameKeepsInv(v: GameVars, evento: u32, aux: u32, now: u64, rnd: u32, scaled: u32)
    requires Inv(v) && v.state == Juego
    ensures Inv(React(v, evento, aux, now, rnd, scaled).after)
  {
    if evento == EV_PULSAR_BOTON && aux <= 1 {
      var mask: u8 := if aux == 0 then 1 else 2;
      if HasNote(v.compas[0], mask) {
        ClearNote(v.compas[0], mask);
      }
    }
  }

  /** `beat_hero_iniciar` leaves variables that satisfy the invariant, whatever they were. */
  lemma BootSatisfiesInv(v: GameVars)
    requires |v.compas| == 3
    ensures Inv(Reset(v.(state := Init, highScore := 0)).after)
  {
  }

  /** The three screens change only as the game's rules say: the attract mode starts a game
      exactly on a press of button 0 or 1; a game ends, and only ever on the result screen,
      exactly on a press of button 2 or 3, on a tick once 30 bars are played or the score is
      below -5, or on a press that takes the score below -5; the result screen returns to the
      attract mode exactly on the reset timeout. */
  lemma StateTransitions(v: GameVars, evento: u32, aux: u32, now: u64, rnd: u32, scaled: u32)
    requires |v.compas| == 3
    ensures var s := Next(v, evento, aux, now, rnd, scaled).after.state;
      && (v.state == Init ==> (s == Juego <==> evento == EV_PULSAR_BOTON && (aux == 0 || aux == 1)) && s != Resultado)
      && (v.state == Juego ==> s != Init)
      && (v.state == Juego ==> (s == Resultado <==>
            || (evento == EV_PULSAR_BOTON && (aux == 2 || aux == 3))
            || (evento == EV_JUEGO_NUEVO_LED && aux == ID_ALARMA_TICK && (v.bars >= MAX_COMPASES_PARTIDA || v.score < SCORE_MIN_FAIL))
            || (evento == EV_PULSAR_BOTON && aux <= 1 && Evaluate(v, if aux == 0 then 1 else 2, now).score < SCORE_MIN_FAIL)))
      && (v.state == Resultado ==> (s == Init <==> evento == EV_JUEGO_TIMEOUT && aux == ID_ALARMA_RESET) && s != Juego)
  {
  }

  /** The high score never decreases, and it changes only on a victorious end (a tick with 30
      bars played) whose score beats it. */
  lemma HighScoreOnlyRisesOnVictory(v: GameVars, evento: u32, aux: u32, now: u64, rnd: u32, scaled: u32)
    requires |v.compas| == 3
    ensures var h := Next(v, evento, aux, now, rnd, scaled).after.highScore;
      && h >= v.highScore
      && (h != v.highScore ==>
            && v.state == Juego && evento == EV_JUEGO_NUEVO_LED && aux == ID_ALARMA_TICK
            && v.bars >= MAX_COMPASES_PARTIDA && h == v.score)
  {
  }

  /** The level never exceeds 4, and it rises, by one, only on a game tick that finds a positive
      multiple of 5 bars played. */
  lemma LevelRisesEveryFiveBars(v: GameVars, evento: u32, aux: u32, now: u64, rnd: u32, scaled: u32)
    requires Inv(v)
    ensures var l := Next(v, evento, aux, now, rnd, scaled).after.level;
      && 1 <= l <= 4
      && (l > v.level ==>
            && v.state == Juego && evento == EV_JUEGO_NUEVO_LED && aux == ID_ALARMA_TICK
            && v.bars % 5 == 0 && v.bars > 0 && l == v.level + 1)
  {
  }

  /** Every way into the result screen cancels the game tick. */
  lemma EndingCancelsTick(v: GameVars, evento: u32, aux: u32, now: u64, rnd: u32, scaled: u32)
    requires |v.compas| == 3
    ensures var o := Next(v, evento, aux, now, rnd, scaled);
      v.state != Resultado && o.after.state == Resultado ==> CANCEL_TICK in o.requests
  {
  }

  /** Starting a game sets up a fresh one with 1000 ms bars, stops the attract mode, cancels
      any reset alarm and arms the first tick. */
  lemma StartingIsFresh(v: GameVars, evento: u32, aux: u32, now: u64, rnd: u32, scaled: u32)
    requires |v.compas| == 3 && v.state == Init && evento == EV_PULSAR_BOTON && (aux == 0 || aux == 1)
    ensures var o := Next(v, evento, aux, now, rnd, scaled);
      && o.after == GameVars(Juego, 0, v.highScore, 0, 1000, v.barStart, 1, [0, 0, 0])
      && o.requests == [CANCEL_DEMO, CANCEL_RESET, TickRequest(1000)]
  {
  }

  /** On the result screen, pressing button 2 or 3 arms a 3000 ms one-shot reset alarm, and a
      release before it expires cancels it: afterwards no slot with the reset key is active, and
      such a slot never fires however many ticks pass. */
  lemma ReleaseBeforeExpiryCancelsReset(s: seq<Alarms.Alarm>, n: nat)
    requires Alarms.UniqueKeys(s)
    requires Alarms.Activate(s, ARM_RESET.word, EV_JUEGO_TIMEOUT, ID_ALARMA_RESET).Some?
    ensures var t := Alarms.Activate(s, ARM_RESET.word, EV_JUEGO_TIMEOUT, ID_ALARMA_RESET).value;
      && Alarms.FindAlarm(t, EV_JUEGO_TIMEOUT, ID_ALARMA_RESET).Some?
      && t[Alarms.FindAlarm(t, EV_JUEGO_TIMEOUT, ID_ALARMA_RESET).value]
           == Alarms.Alarm(true, false, TIEMPO_REINICIO_MS, TIEMPO_REINICIO_MS, EV_JUEGO_TIMEOUT, ID_ALARMA_RESET)
      && Alarms.Activate(t, CANCEL_RESET.word, EV_JUEGO_TIMEOUT, ID_ALARMA_RESET).Some?
      && var u := Alarms.Activate(t, CANCEL_RESET.word, EV_JUEGO_TIMEOUT, ID_ALARMA_RESET).value;
         forall j :: 0 <= j < |u| && u[j].kind == EV_JUEGO_TIMEOUT && u[j].aux == ID_ALARMA_RESET ==>
           !u[j].active && Alarms.FireCount(u[j], n) == 0
  {
    Alarms.CodificarRoundTrip(false, TIEMPO_REINICIO_MS, Flags(ID_ALARMA_RESET));
    Alarms.ArmSpec(s, ARM_RESET.word, EV_JUEGO_TIMEOUT, ID_ALARMA_RESET);
    var t := Alarms.Activate(s, ARM_RESET.word, EV_JUEGO_TIMEOUT, ID_ALARMA_RESET).value;
    Alarms.CancelSpec(t, EV_JUEGO_TIMEOUT, ID_ALARMA_RESET);
    var u := Alarms.Activate(t, 0, EV_JUEGO_TIMEOUT, ID_ALARMA_RESET).value;
    forall j | 0 <= j < |u| && u[j].kind == EV_JUEGO_TIMEOUT && u[j].aux == ID_ALARMA_RESET
      ensures !u[j].active && Alarms.FireCount(u[j], n) == 0
    {
      assert !Alarms.Matches(u[j], EV_JUEGO_TIMEOUT, ID_ALARMA_RESET);
      Alarms.InactiveStaysSilent(u[j], n);
    }
  }

  /** The subscription lists after `rt_GE_suscribir(kind, 1, beat_hero_actualizar)` for each
      of `kinds` in turn, or None when one of them halts on a full list. */
  function SubscribeAll(ls: seq<seq<Subs.Subscription>>, kinds: seq<u32>): (r: Option<seq<seq<Subs.Subscription>>>)
    requires |ls| == EVENT_TYPES
    ensures r.Some? ==> |r.value| == EVENT_TYPES
    decreases |kinds|
  {
    if kinds == [] then Some(ls)
    else match Subs.SubscribeResult(ls, kinds[0], GAME_PRIORITY, Subs.BeatHeroActualizar)
      case None => None
      case Some(t) => SubscribeAll(t, kinds[1..])
  }

  /** Subscribing to `a + b` is subscribing to `a`, then, unless that halted, to `b`. */
  lemma {:induction false} SubscribeAllAppend(ls: seq<seq<Subs.Subscription>>, a: seq<u32>, b: seq<u32>)
    requires |ls| == EVENT_TYPES
    ensures SubscribeAll(ls, a + b) ==
      match SubscribeAll(ls, a)
      case None => None
      case Some(t) => SubscribeAll(t, b)
    decreases |a|
  {
    if a == [] {
      assert a + b == b;
    } else {
      assert (a + b)[0] == a[0] && (a + b)[1..] == a[1..] + b;
      match Subs.SubscribeResult(ls, a[0], GAME_PRIORITY, Subs.BeatHeroActualizar)
      case None =>
      case Some(t) =>
        SubscribeAllAppend(t, a[1..], b);
    }
  }

  /** The game's four subscriptions fit whenever each of its four lists has room for one more:
      the game's handler then joins each of those lists in priority order, and no other list
      changes. */
  lemma GameSubscriptionsFit(ls: seq<seq<Subs.Subscription>>)
    requires |ls| == EVENT_TYPES
    requires forall i :: 0 <= i < |GAME_KINDS| ==> |ls[GAME_KINDS[i]]| < Subs.MAX_SUSCRITOS
    ensures SubscribeAll(ls, GAME_KINDS).Some?
    ensures forall k :: 0 <= k < EVENT_TYPES ==>
      SubscribeAll(ls, GAME_KINDS).value[k] ==
        if k in GAME_KINDS then Subs.InsertSorted(ls[k], Subs.Subscription(Subs.BeatHeroActualizar, GAME_PRIORITY))
        else ls[k]
  {
    var e := Subs.Subscription(Subs.BeatHeroActualizar, GAME_PRIORITY);
    assert |ls[EV_JUEGO_NUEVO_LED]| < 4 && |ls[EV_PULSAR_BOTON]| < 4 && |ls[EV_SOLTAR_BOTON]| < 4 && |ls[EV_JUEGO_TIMEOUT]| < 4 by {
      assert GAME_KINDS[0] == EV_JUEGO_NUEVO_LED && GAME_KINDS[1] == EV_PULSAR_BOTON;
      assert GAME_KINDS[2] == EV_SOLTAR_BOTON && GAME_KINDS[3] == EV_JUEGO_TIMEOUT;
    }
    var l1 := ls[EV_JUEGO_NUEVO_LED := Subs.InsertSorted(ls[EV_JUEGO_NUEVO_LED], e)];
    var l2 := l1[EV_PULSAR_BOTON := Subs.InsertSorted(ls[EV_PULSAR_BOTON], e)];
    var l3 := l2[EV_SOLTAR_BOTON := Subs.InsertSorted(ls[EV_SOLTAR_BOTON], e)];
    var l4 := l3[EV_JUEGO_TIMEOUT := Subs.InsertSorted(ls[EV_JUEGO_TIMEOUT], e)];
    assert GAME_KINDS[1..] == [EV_PULSAR_BOTON, EV_SOLTAR_BOTON, EV_JUEGO_TIMEOUT];
    assert GAME_KINDS[1..][1..] == [EV_SOLTAR_BOTON, EV_JUEGO_TIMEOUT];
    assert GAME_KINDS[1..][1..][1..] == [EV_JUEGO_TIMEOUT];
    assert Subs.SubscribeResult(ls, EV_JUEGO_NUEVO_LED, GAME_PRIORITY, Subs.BeatHeroActualizar) == Some(l1);
    assert Subs.SubscribeResult(l1, EV_PULSAR_BOTON, GAME_PRIORITY, Subs.BeatHeroActualizar) == Some(l2);
    assert Subs.SubscribeResult(l2, EV_SOLTAR_BOTON, GAME_PRIORITY, Subs.BeatHeroActualizar) == Some(l3);
    assert Subs.SubscribeResult(l3, EV_JUEGO_TIMEOUT, GAME_PRIORITY, Subs.BeatHeroActualizar) == Some(l4);
    assert SubscribeAll(l4, []) == Some(l4);
    assert SubscribeAll(l3, GAME_KINDS[1..][1..][1..]) == Some(l4);
    assert SubscribeAll(l2, GAME_KINDS[1..][1..]) == Some(l4);
    assert SubscribeAll(l1, GAME_KINDS[1..]) == Some(l4);
    assert SubscribeAll(ls, GAME_KINDS) == Some(l4);
  }

  class Game {
    var state: GameState      // s_estado
    var score: int            // s_score
    var highScore: int        // s_high_score
    var bars: nat             // s_compases_jugados
    var duration: u32         // s_duracion_compas_ms
    var barStart: u64         // s_tiempo_inicio_compas
    var level: u8             // s_nivel_dificultad
    const compas: array<u8>   // the note window; slot 0 is the one being played
    var requests: seq<AlarmRequest>  // svc_alarma_activar calls, in order

    /** The game's variables as a value. */
    function Snapshot(): GameVars
      reads this, compas
    {
      GameVars(state, score, highScore, bars, duration, barStart, level, compas[..])
    }

    /** The zero-initialised statics, before `beat_hero_iniciar`. */
    constructor ()
      ensures compas.Length == 3 && fresh(compas)
      ensures Snapshot() == STATIC_VARS && requests == []
      ensures Inv(Snapshot())
    {
      state, score, highScore, bars := Init, 0, 0, 0;
      duration, barStart, level := DURACION_INICIAL_MS, 0, 1;
      compas := new u8[3](_ => 0);
      requests := [];
    }

    /** `beat_hero_iniciar`: the attract mode with a zero high score; the handler is subscribed
        to its four kinds with priority 1 (`SubscribeGame`; a full list halts the system there);
        then a fresh game is set up and the 500 ms demo alarm is armed. */
    method Iniciar(table: Subs.SubscriptionTable)
      requires compas.Length == 3 && table.Valid() && !table.halted
      modifies this`state, this`highScore, this`score, this`bars, this`level, this`duration, this`requests, compas
      modifies table`halted, table`marks, table.table, table.counts
      ensures table.Valid()
      ensures table.halted ==>
        Snapshot() == old(Snapshot()).(state := Init, highScore := 0) && requests == old(requests)
      ensures !table.halted ==>
        && Snapshot() == Reset(old(Snapshot()).(state := Init, highScore := 0)).after
        && requests == old(requests) + [CANCEL_RESET, DEMO_REQUEST]
    {
      state := Init;
      highScore := 0;
      SubscribeGame(table);
      if table.halted {
        return;
      }
      assert table.counts != compas as object;
      Arrancar();
    }

    /** The end of `beat_hero_iniciar`: a fresh game, then the demo alarm. */
    method Arrancar()
      requires compas.Length == 3
      modifies this`score, this`bars, this`level, this`duration, this`requests, compas
      ensures Snapshot() == Reset(old(Snapshot())).after
      ensures requests == old(requests) + [CANCEL_RESET, DEMO_REQUEST]
    {
      ReiniciarVariablesJuego();
      requests := requests + [DEMO_REQUEST];
    }

    /** The four `rt_GE_suscribir` calls of `beat_hero_iniciar`, in two pairs. */
    static method SubscribeGame(table: Subs.SubscriptionTable)
      requires table.Valid() && !table.halted
      modifies table`halted, table`marks, table.table, table.counts
      ensures table.Valid()
      ensures table.halted <==> SubscribeAll(old(table.Lists()), GAME_KINDS).None?
      ensures !table.halted ==> table.Lists() == SubscribeAll(old(table.Lists()), GAME_KINDS).value
    {
      ghost var l0 := table.Lists();
      assert GAME_KINDS == [EV_JUEGO_NUEVO_LED, EV_PULSAR_BOTON] + [EV_SOLTAR_BOTON, EV_JUEGO_TIMEOUT];
      SubscribeAllAppend(l0, [EV_JUEGO_NUEVO_LED, EV_PULSAR_BOTON], [EV_SOLTAR_BOTON, EV_JUEGO_TIMEOUT]);
      SubscribePair(table, EV_JUEGO_NUEVO_LED, EV_PULSAR_BOTON);
      if table.halted {
        return;
      }
      SubscribePair(table, EV_SOLTAR_BOTON, EV_JUEGO_TIMEOUT);
    }

    /** Two consecutive `rt_GE_suscribir(kind, 1, beat_hero_actualizar)` calls; the second is
        not reached when the first halts. */
    static method SubscribePair(table: Subs.SubscriptionTable, k1: u32, k2: u32)
      requires table.Valid() && !table.halted
      modifies table`halted, table`marks, table.table, table.counts
      ensures table.Valid()
      ensures table.halted <==> SubscribeAll(old(table.Lists()), [k1, k2]).None?
      ensures !table.halted ==> table.Lists() == SubscribeAll(old(table.Lists()), [k1, k2]).value
    {
      ghost var l0 := table.Lists();
      assert [k1, k2][1..] == [k2];
      table.Subscribe(k1, GAME_PRIORITY, Subs.BeatHeroActualizar);
      if table.halted {
        return;
      }
      ghost var l1 := table.Lists();
      assert SubscribeAll(l0, [k1, k2]) == SubscribeAll(l1, [k2]);
      table.Subscribe(k2, GAME_PRIORITY, Subs.BeatHeroActualizar);
      if !table.halted {
        assert SubscribeAll(l1, [k2]) == SubscribeAll(table.Lists(), []);
      }
    }

    /** `beat_hero_actualizar(evento, aux)`, with `now` the reading of `drv_tiempo_actual_us`,
        `rnd` the draw of `drv_aleatorios_rango(100)` and `scaled` the bar length the float
        scaling at level 4 produces. */
    method Actualizar(evento: u32, aux: u32, now: u64, rnd: u32, scaled: u32)
      requires compas.Length == 3
      modifies this, compas
      ensures Snapshot() == Next(old(Snapshot()), evento, aux, now, rnd, scaled).after
      ensures requests == old(requests) + Next(old(Snapshot()), evento, aux, now, rnd, scaled).requests
    {
      if state == Juego && (evento == EV_PULSAR_BOTON || evento == EV_SOLTAR_BOTON) {
        requests := requests + [KEEP_AWAKE];
      }
      match state
      case Init =>
        OnAttractEvent(evento, aux, now, rnd, scaled);
      case Juego =>
        OnGameEvent(evento, aux, now, rnd, scaled);
      case Resultado =>
        OnResultEvent(evento, aux, now, rnd, scaled);
    }

    /** The `e_INIT` case of `beat_hero_actualizar`. */
    method OnAttractEvent(evento: u32, aux: u32, now: u64, rnd: u32, scaled: u32)
      requires compas.Length == 3 && state == Init
      modifies this`state, this`score, this`bars, this`level, this`duration, this`requests, compas
      ensures Snapshot() == React(old(Snapshot()), evento, aux, now, rnd, scaled).after
      ensures requests == old(requests) + React(old(Snapshot()), evento, aux, now, rnd, scaled).requests
    {
      if evento == EV_JUEGO_NUEVO_LED && aux == ID_ALARMA_DEMO {
        requests := requests + [DEMO_REQUEST];
      }
      if evento == EV_PULSAR_BOTON && (aux == 2 || aux == 3) {
        return;
      }
      if evento == EV_PULSAR_BOTON && (aux == 0 || aux == 1) {
        requests := requests + [CANCEL_DEMO];
        state := Juego;
        ReiniciarVariablesJuego();
        duration := MS_POR_MINUTO / BPM_INICIAL;
        ProgramarSiguienteTick();
      }
    }

    /** The `e_RESULTADO` case of `beat_hero_actualizar`. */
    method OnResultEvent(evento: u32, aux: u32, now: u64, rnd: u32, scaled: u32)
      requires compas.Length == 3 && state == Resultado
      modifies this`state, this`score, this`bars, this`level, this`duration, this`requests, compas
      ensures Snapshot() == React(old(Snapshot()), evento, aux, now, rnd, scaled).after
      ensures requests == old(requests) + React(old(Snapshot()), evento, aux, now, rnd, scaled).requests
    {
      if evento == EV_PULSAR_BOTON && (aux == 2 || aux == 3) {
        requests := requests + [ARM_RESET];
      }
      if evento == EV_SOLTAR_BOTON && (aux == 2 || aux == 3) {
        requests := requests + [CANCEL_RESET];
      }
      if evento == EV_JUEGO_TIMEOUT && aux == ID_ALARMA_RESET {
        ReiniciarVariablesJuego();
        state := Init;
        requests := requests + [DEMO_REQUEST];
      }
    }

    /** The `e_JUEGO` case of `beat_hero_actualizar`. */
    method OnGameEvent(evento: u32, aux: u32, now: u64, rnd: u32, scaled: u32)
      requires compas.Length == 3 && state == Juego
      modifies this, compas
      ensures Snapshot() == React(old(Snapshot()), evento, aux, now, rnd, scaled).after
      ensures requests == old(requests) + React(old(Snapshot()), evento, aux, now, rnd, scaled).requests
    {
      if evento == EV_PULSAR_BOTON && (aux == 2 || aux == 3) {
        FinalizarPartida(false);
        return;
      }
      if evento == EV_JUEGO_NUEVO_LED && aux == ID_ALARMA_TICK {
        if bars >= MAX_COMPASES_PARTIDA {
          FinalizarPartida(true);
          return;
        }
        if score < SCORE_MIN_FAIL {
          FinalizarPartida(false);
          return;
        }
        AvanzarCompas(rnd);
        if bars % 5 == 0 && bars > 0 {
          level := (level + 1) % 256;
          if level > 4 {
            level := 4;
          }
          if level == 4 {
            duration := scaled;
          }
        }
        barStart := now;
        bars := bars + 1;
        ProgramarSiguienteTick();
      } else if evento == EV_PULSAR_BOTON && aux <= 1 {
        EvaluarJugada(if aux == 0 then 1 else 2, now);
        if score < SCORE_MIN_FAIL {
          FinalizarPartida(false);
        }
      }
    }

    /** `finalizar_partida(exito)`. */
    method FinalizarPartida(exito: bool)
      requires compas.Length == 3
      modifies this`state, this`highScore, this`requests
      ensures Snapshot() == Finish(old(Snapshot()), exito).after
      ensures requests == old(requests) + Finish(old(Snapshot()), exito).requests
    {
      state := Resultado;
      requests := requests + [CANCEL_TICK];
      if exito {
        if score > highScore {
          highScore := score;
        }
      }
    }

    /** `reiniciar_variables_juego`. */
    method ReiniciarVariablesJuego()
      requires compas.Length == 3
      modifies this`score, this`bars, this`level, this`duration, this`requests, compas
      ensures Snapshot() == Reset(old(Snapshot())).after
      ensures requests == old(requests) + Reset(old(Snapshot())).requests
    {
      score := 0;
      bars := 0;
      level := 1;
      duration := DURACION_INICIAL_MS;
      compas[0], compas[1], compas[2] := 0, 0, 0;
      requests := requests + [CANCEL_RESET];
    }

    /** `avanzar_compas`, with `rnd` the draw of `drv_aleatorios_rango(100)`. */
    method AvanzarCompas(rnd: u32)
      requires compas.Length == 3
      modifies compas
      ensures Snapshot() == Advance(old(Snapshot()), rnd)
    {
      compas[0] := compas[1];
      compas[1] := compas[2];
      var p: u8 := 0;
      if level == 1 {
        p := if rnd > 50 then 1 else 2;
      } else if level == 2 {
        p := if rnd < 20 then 0 else if rnd < 60 then 1 else 2;
      } else {
        p := if rnd < 15 then 0 else if rnd < 45 then 1 else if rnd < 75 then 2 else 3;
      }
      compas[2] := p;
    }

    /** `programar_siguiente_tick`: arms the game tick for one bar. */
    method ProgramarSiguienteTick()
      modifies this`requests
      ensures requests == old(requests) + [TickRequest(duration)]
    {
      requests := requests + [TickRequest(duration)];
    }

    /** `evaluar_jugada(mask)` for a press at `now`. */
    method EvaluarJugada(mask: u8, now: u64)
      requires compas.Length == 3 && (mask == 1 || mask == 2)
      modifies this`score, compas
      ensures Snapshot() == Evaluate(old(Snapshot()), mask, now)
    {
      if compas[0] == 0 {
        score := score - 1;
        return;
      }
      if HasNote(compas[0], mask) {
        score := score + TimingScore(now, barStart, duration);
        compas[0] := compas[0] - mask;
      } else {
        score := score - 1;
      }
    }
  }
}
