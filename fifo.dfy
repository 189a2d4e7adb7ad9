/**
 * The event queue (src/rt_fifo.c): a 32-slot circular buffer of events with a pending
 * count, a read index and per-kind push statistics. Every update is bracketed by the
 * critical section.
 */
module Fifo {
  import opened Events
  import CS = CriticalSection

  /** TAMCOLA. */
  const CAPACITY: nat := 32

  /** The statistics slot a pushed kind counts against: its own, or ev_VOID when out of range. */
  function StatsIndex(kind: u32): (k: nat)
    ensures k < EVENT_TYPES
    ensures kind < EVENT_TYPES ==> k == kind
    ensures kind >= EVENT_TYPES ==> k == EV_VOID
  {
    if kind < EVENT_TYPES then kind else EV_VOID
  }

  /** The statistics after one push of `kind`: that kind's 32-bit counter goes up by one and
      no other counter changes. */
  function CountPush(stats: seq<u32>, kind: u32): (r: seq<u32>)
    requires |stats| == EVENT_TYPES
    ensures |r| == EVENT_TYPES
    ensures r[StatsIndex(kind)] == (stats[StatsIndex(kind)] + 1) % U32_MODULUS
    ensures forall j :: 0 <= j < EVENT_TYPES && j != StatsIndex(kind) ==> r[j] == stats[j]
  {
    var k := StatsIndex(kind);
    stats[k := (stats[k] + 1) % U32_MODULUS]
  }

  /** How many of the pushed kinds count against statistics slot `k`. */
  function Occurrences(kinds: seq<u32>, k: nat): nat
  {
    if kinds == [] then 0
    else Occurrences(kinds[..|kinds| - 1], k) + (if StatsIndex(kinds[|kinds| - 1]) == k then 1 else 0)
  }

  class EventQueue {
    const cola: array<Event>  // the ring of records
    const stats: array<u32>   // estadisticas[EVENT_TYPES]
    var monitor: u8           // overflow monitor id (MONITOR_id_t)
    var lastServed: nat       // ultimo_tratado
    var head: nat             // siguiente_a_tratar
    var count: nat            // eventos_a_tratar
    var initialized: bool     // s_iniciado
    var halted: bool          // the overflow `while (1)` has been reached
    var marks: seq<u8>        // monitor ids handed to drv_monitor_marcar

    /** The pending events, oldest first. */
    ghost var Contents: seq<Event>

    /** The kinds of every push that reached the statistics, oldest first. */
    ghost var Counted: seq<u32>

    /** The ring holds the pending events, and each statistic is the number of counted pushes of
        its kind, modulo 2^32. */
    ghost predicate Valid()
      reads this, cola, stats
    {
      && cola.Length == CAPACITY && stats.Length == EVENT_TYPES
      && head < CAPACITY && lastServed < CAPACITY && count <= CAPACITY
      && |Contents| == count
      && (forall i :: 0 <= i < count ==> Contents[i] == cola[Slot(head, i)])
      && StatsCounted()
    }

    /** Each statistic is the number of counted pushes of its kind, modulo 2^32. */
    ghost predicate StatsCounted()
      reads this, stats
    {
      stats.Length == EVENT_TYPES && forall k :: 0 <= k < EVENT_TYPES ==> stats[k] == Occurrences(Counted, k) % U32_MODULUS
    }

    /** The zero-initialised static queue, before `rt_FIFO_inicializar`. */
    constructor ()
      ensures Valid() && fresh(cola) && fresh(stats)
      ensures !initialized && !halted && marks == [] && Contents == [] && Counted == []
      ensures forall k :: 0 <= k < EVENT_TYPES ==> stats[k] == 0
    {
      cola := new Event[CAPACITY](_ => Event(0, 0, 0));
      stats := new u32[EVENT_TYPES](_ => 0);
      monitor, lastServed, head, count := 0, 0, 0, 0;
      initialized, halted, marks := false, false, [];
      Contents, Counted := [], [];
    }

    /** `rt_FIFO_inicializar`: empties the queue and records the overflow monitor, truncated to
        the 8 bits of its MONITOR_id_t field; the statistics and the stored records are left as
        they were. */
    method Inicializar(monitorOverflow: u32)
      requires Valid()
      modifies this
      ensures Valid() && initialized && Contents == [] && head == 0
      ensures monitor == monitorOverflow % 256
      ensures halted == old(halted) && marks == old(marks)
      ensures lastServed == 0 && Counted == old(Counted)
      ensures stats[..] == old(stats[..]) && cola[..] == old(cola[..])
    {
      lastServed, head := 0, 0;
      monitor := monitorOverflow % 256;
      count := 0;
      initialized := true;
      Contents := [];
    }

    /** `rt_FIFO_encolar` with the timestamp `ts` already read. Before initialisation it does
        nothing; when 32 events are pending it marks the overflow monitor and halts without
        writing a slot; otherwise it writes slot (head + count) mod 32, appends the event and
        counts it in the statistics. */
    method Push(kind: u32, aux: u32, ts: nat, sc: CS.Section)
      requires Valid() && !halted
      modifies this`count, this`halted, this`marks, this`Contents, this`Counted, cola, stats, sc
      ensures Valid()
      ensures Counted == old(Counted) + (if old(initialized) && old(count) < CAPACITY then [kind] else [])
      ensures !old(initialized) ==>
        && Contents == old(Contents) && !halted && marks == old(marks)
        && stats[..] == old(stats[..]) && cola[..] == old(cola[..]) && sc.Current() == old(sc.Current())
      ensures old(initialized) ==> sc.Current() == CS.State(old(sc.depth), old(sc.depth) == 0)
      ensures old(initialized) && old(count) == CAPACITY ==>
        && halted && marks == old(marks) + [monitor]
        && Contents == old(Contents) && stats[..] == old(stats[..]) && cola[..] == old(cola[..])
      ensures old(initialized) && old(count) < CAPACITY ==>
        && !halted && marks == old(marks)
        && Contents == old(Contents) + [Event(kind, aux, ts)]
        && cola[Slot(old(head), old(count))] == Event(kind, aux, ts)
        && (forall j :: 0 <= j < CAPACITY && j != Slot(old(head), old(count)) ==> cola[j] == old(cola[j]))
        && stats[..] == CountPush(old(stats[..]), kind)
    {
      if !initialized {
        return;
      }
      var ev := Event(kind, aux, ts);
      var _ := sc.Enter();
      if count + 1 > CAPACITY {
        marks := marks + [monitor];
        sc.Exit();
        halted := true;
        return;
      }
      Store(ev);
      sc.Exit();
    }

    /** The writing part of `rt_FIFO_encolar` on a queue with room: one more pending event,
        written to the slot after the last pending one and counted in the statistics. */
    method Store(ev: Event)
      requires Valid() && count < CAPACITY
      modifies this`count, this`Contents, this`Counted, cola, stats
      ensures Valid() && Counted == old(Counted) + [ev.kind]
      ensures Contents == old(Contents) + [ev]
      ensures cola[Slot(head, old(count))] == ev
      ensures forall j :: 0 <= j < CAPACITY && j != Slot(head, old(count)) ==> cola[j] == old(cola[j])
      ensures stats[..] == CountPush(old(stats[..]), ev.kind)
    {
      count := count + 1;
      var index := (head + count - 1) % CAPACITY;
      cola[index] := ev;
      CountStat(ev.kind);
      Contents := Contents + [ev];
      forall i | 0 <= i < count - 1
        ensures Contents[i] == cola[Slot(head, i)]
      {
        RingSlotsDistinct(head, i, count - 1);
      }
    }

    /** The statistics update of `rt_FIFO_encolar`: the counter of the push's kind goes up by
        one modulo 2^32, and the push joins the counted history. */
    method CountStat(kind: u32)
      requires StatsCounted()
      modifies stats, this`Counted
      ensures StatsCounted() && Counted == old(Counted) + [kind]
      ensures stats[..] == CountPush(old(stats[..]), kind)
    {
      var k := StatsIndex(kind);
      stats[k] := (stats[k] + 1) % U32_MODULUS;
      Counted := Counted + [kind];
      assert Counted[..|Counted| - 1] == old(Counted);
    }

    /** `rt_FIFO_extraer`. On an empty queue: 0 and no change. Otherwise the oldest event is
        removed, the read index advances by one modulo 32, and the result is the number still
        pending, or 1 when none is. */
    method Pop(sc: CS.Section) returns (r: nat, ev: Option<Event>)
      requires Valid()
      modifies this`lastServed, this`head, this`count, this`Contents, sc
      ensures Valid()
      ensures sc.Current() == CS.State(old(sc.depth), old(sc.depth) == 0)
      ensures old(count) == 0 ==>
        r == 0 && ev == None && Contents == old(Contents) && head == old(head) && lastServed == old(lastServed)
      ensures old(count) > 0 ==>
        && ev == Some(old(Contents)[0]) && Contents == old(Contents)[1..]
        && head == (old(head) + 1) % CAPACITY && count == old(count) - 1 && lastServed == old(head)
        && r == (if count == 0 then 1 else count) && r > 0
    {
      var _ := sc.Enter();
      if count == 0 {
        sc.Exit();
        return 0, None;
      }
      var e := cola[head];
      lastServed := head;
      head := (head + 1) % CAPACITY;
      count := count - 1;
      r := if count == 0 then 1 else count;
      sc.Exit();
      ev := Some(e);
      Contents := Contents[1..];
      forall i | 0 <= i < count
        ensures Contents[i] == cola[Slot(head, i)]
      {
        assert old(Contents)[i + 1] == cola[Slot(lastServed, i + 1)];
        RingStep(lastServed, i);
      }
    }

    /** `rt_FIFO_estadisticas`: how many pushes have counted against `kind`, modulo 2^32 (the
        source indexes the array without a bounds check, so the kind must be in range). */
    function Estadisticas(kind: u32): (r: u32)
      reads this, cola, stats
      requires Valid() && kind < EVENT_TYPES
      ensures r == Occurrences(Counted, kind) % U32_MODULUS
    {
      stats[kind]
    }
  }

  /** The ring slot `i` places after `head`. */
  function Slot(head: nat, i: nat): (j: nat)
    ensures j < CAPACITY
  {
    (head + i) % CAPACITY
  }

  /** Slots head + i for i < n (n < 32) differ from slot head + n. */
  lemma {:induction false} RingSlotsDistinct(head: nat, i: nat, n: nat)
    requires i < n < CAPACITY
    ensures Slot(head, i) != Slot(head, n)
  {
  }

  lemma {:induction false} RingStep(h: nat, i: nat)
    ensures Slot(h, i + 1) == Slot(Slot(h, 1), i)
  {
  }

  /** The sequence the source's self-test runs: pushes and pops come back in order with the
      same kind and payload. */
  method FifoOrderScenario() returns (first: Option<Event>, second: Option<Event>, third: Option<Event>, fourth: Option<Event>)
    ensures first == Some(Event(EV_USUARIO_1, 123, 0))
    ensures second.Some? && second.value.kind == EV_PULSAR_BOTON && second.value.aux == 1
    ensures third.Some? && third.value.kind == EV_SOLTAR_BOTON && third.value.aux == 2
    ensures fourth.Some? && fourth.value.kind == EV_BOTON_TIMER && fourth.value.aux == 3
  {
    var q := new EventQueue();
    var sc := new CS.Section();
    q.Inicializar(1);
    q.Push(EV_USUARIO_1, 123, 0, sc);
    assert q.Contents == [Event(EV_USUARIO_1, 123, 0)];
    var r;
    r, first := q.Pop(sc);
    second, third, fourth := ThreeInOrder(q, sc);
  }

  /** The second half of the self-test: three pushes into an empty queue, then three pops. */
  method ThreeInOrder(q: EventQueue, sc: CS.Section) returns (second: Option<Event>, third: Option<Event>, fourth: Option<Event>)
    requires q.Valid() && q.initialized && !q.halted && q.Contents == []
    modifies q, q.cola, q.stats, sc
    ensures second == Some(Event(EV_PULSAR_BOTON, 1, 10))
    ensures third == Some(Event(EV_SOLTAR_BOTON, 2, 20))
    ensures fourth == Some(Event(EV_BOTON_TIMER, 3, 30))
  {
    q.Push(EV_PULSAR_BOTON, 1, 10, sc);
    q.Push(EV_SOLTAR_BOTON, 2, 20, sc);
    q.Push(EV_BOTON_TIMER, 3, 30, sc);
    assert q.Contents == [Event(EV_PULSAR_BOTON, 1, 10), Event(EV_SOLTAR_BOTON, 2, 20), Event(EV_BOTON_TIMER, 3, 30)];
    var r;
    r, second := q.Pop(sc);
    r, third := q.Pop(sc);
    r, fourth := q.Pop(sc);
  }
}
