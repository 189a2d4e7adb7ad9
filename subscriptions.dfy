/**
 * The subscription table of the event manager (src/rt_GE.c): for each of the 9 event
 * kinds, up to 4 (callback, priority) entries kept in non-decreasing priority order.
 * Callbacks are named by what they are, since the model does not hold code pointers.
 */
module Subscriptions {
  import opened Events

  /** rt_GE_MAX_SUSCRITOS. */
  const MAX_SUSCRITOS: nat := 4

  /** A subscribed handler (f_callback_GE): NULL, one of the system's own handlers, or an
      application handler named by a number. */
  datatype Callback =
    | Null
    | GeActualizar        // rt_GE_actualizar
    | AlarmaActualizar    // svc_alarma_actualizar
    | BotonesActualizar   // drv_botones_actualizar
    | BeatHeroActualizar  // beat_hero_actualizar
    | AppCallback(id: nat)

  /** One table entry (TareaSuscrita_t); 0 is the highest priority. */
  datatype Subscription = Subscription(callback: Callback, priority: u8)

  /** The contents of an unused slot. */
  const EMPTY_SLOT: Subscription := Subscription(Null, 255)

  /** A call made by the dispatcher: handler, event kind, payload. */
  datatype Invocation = Invocation(callback: Callback, kind: u32, aux: u32)

  ghost predicate Sorted(l: seq<Subscription>)
  {
    forall i, j :: 0 <= i < j < |l| ==> l[i].priority <= l[j].priority
  }

  ghost predicate NoNull(l: seq<Subscription>)
  {
    forall i :: 0 <= i < |l| ==> l[i].callback != Null
  }

  /** Where the insertion loop of `rt_GE_suscribir` stops: just after the last entry whose
      priority is not greater than `p`. */
  function InsertPos(l: seq<Subscription>, p: u8): (i: nat)
    ensures i <= |l|
    ensures i > 0 ==> l[i - 1].priority <= p
    ensures forall j :: i <= j < |l| ==> l[j].priority > p
  {
    if |l| == 0 then 0
    else if l[|l| - 1].priority <= p then |l|
    else InsertPos(l[..|l| - 1], p)
  }

  /** The list after subscribing `e`. */
  function InsertSorted(l: seq<Subscription>, e: Subscription): (r: seq<Subscription>)
    ensures |r| == |l| + 1 && r[InsertPos(l, e.priority)] == e
  {
    var i := InsertPos(l, e.priority);
    l[..i] + [e] + l[i..]
  }

  /** The stopping point of the insertion loop is determined by the two facts the loop exits with. */
  lemma {:induction false} InsertPosUnique(l: seq<Subscription>, p: u8, i: nat)
    requires i <= |l|
    requires i > 0 ==> l[i - 1].priority <= p
    requires forall j :: i <= j < |l| ==> l[j].priority > p
    ensures InsertPos(l, p) == i
    decreases |l|
  {
    if |l| > 0 && l[|l| - 1].priority > p {
      InsertPosUnique(l[..|l| - 1], p, i);
    }
  }

  /** On a sorted list every entry before the insertion point has priority at most `p`. */
  lemma {:induction false} InsertPosSplits(l: seq<Subscription>, p: u8)
    requires Sorted(l)
    ensures forall j :: 0 <= j < InsertPos(l, p) ==> l[j].priority <= p
  {
    var i := InsertPos(l, p);
    forall j | 0 <= j < i
      ensures l[j].priority <= p
    {
      assert l[j].priority <= l[i - 1].priority;
    }
  }

  /** The new entry lands after every entry whose priority is at most its own and before every
      entry with a greater one; removing it again gives the old list, so the existing entries
      keep their relative order. */
  lemma {:induction false} InsertSortedLayout(l: seq<Subscription>, e: Subscription)
    ensures var r := InsertSorted(l, e); var i := InsertPos(l, e.priority);
      && |r| == |l| + 1 && r[i] == e
      && (forall j :: 0 <= j < i ==> r[j] == l[j])
      && (forall j :: i < j < |r| ==> r[j] == l[j - 1] && r[j].priority > e.priority)
      && r[..i] + r[i + 1..] == l
  {
    var i := InsertPos(l, e.priority);
    var r := l[..i] + [e] + l[i..];
    assert r == InsertSorted(l, e);
    assert forall j :: 0 <= j < i ==> r[j] == l[j];
    assert forall j :: i < j < |r| ==> r[j] == l[j - 1];
    assert r[..i] == l[..i];
    assert r[i + 1..] == l[i..];
  }

  /** A list laid out as `l` with `e` placed at the insertion point is `InsertSorted(l, e)`. */
  lemma {:induction false} InsertedRow(l: seq<Subscription>, e: Subscription, i: nat, row: seq<Subscription>)
    requires i == InsertPos(l, e.priority) && |row| == |l| + 1 && row[i] == e
    requires forall j :: 0 <= j < i ==> row[j] == l[j]
    requires forall j :: i < j < |row| ==> row[j] == l[j - 1]
    ensures row == InsertSorted(l, e)
  {
    InsertSortedLayout(l, e);
  }

  /** Subscribing keeps a sorted list sorted. */
  lemma {:induction false} InsertKeepsSorted(l: seq<Subscription>, e: Subscription)
    requires Sorted(l)
    ensures Sorted(InsertSorted(l, e))
  {
    forall a, b | 0 <= a < b < |l| + 1
      ensures InsertSorted(l, e)[a].priority <= InsertSorted(l, e)[b].priority
    {
      InsertedPairOrdered(l, e, a, b);
    }
  }

  lemma {:induction false} InsertedPairOrdered(l: seq<Subscription>, e: Subscription, a: nat, b: nat)
    requires Sorted(l) && a < b < |l| + 1
    ensures InsertSorted(l, e)[a].priority <= InsertSorted(l, e)[b].priority
  {
    var i := InsertPos(l, e.priority);
    var r := l[..i] + [e] + l[i..];
    assert r == InsertSorted(l, e);
    if b < i {
      assert r[a] == l[a] && r[b] == l[b];
    } else if a > i {
      assert r[a] == l[a - 1] && r[b] == l[b - 1];
    } else if a < i && b > i {
      assert r[a] == l[a] && r[b] == l[b - 1];
      assert l[a].priority <= l[b - 1].priority;
    } else if a == i {
      assert r[b] == l[b - 1];
    } else {
      assert r[a] == l[a] && r[b] == e;
      assert l[a].priority <= l[i - 1].priority;
    }
  }

  /** Subscribing keeps the list free of NULL handlers when the new handler is not NULL. */
  lemma {:induction false} InsertKeepsNoNull(l: seq<Subscription>, e: Subscription)
    requires NoNull(l) && e.callback != Null
    ensures NoNull(InsertSorted(l, e))
  {
    var i := InsertPos(l, e.priority);
    var r := InsertSorted(l, e);
    forall j | 0 <= j < |r|
      ensures r[j].callback != Null
    {
      if j < i { assert r[j] == l[j]; }
      else if j > i { assert r[j] == l[j - 1]; }
    }
  }

  /** The index of the first entry with handler `cb`, if any. */
  function FindCallback(l: seq<Subscription>, cb: Callback): (r: Option<nat>)
    ensures r.Some? ==> r.value < |l| && l[r.value].callback == cb
    ensures r.Some? ==> forall j :: 0 <= j < r.value ==> l[j].callback != cb
    ensures r.None? ==> forall j :: 0 <= j < |l| ==> l[j].callback != cb
  {
    if |l| == 0 then None
    else if l[0].callback == cb then Some(0)
    else match FindCallback(l[1..], cb)
      case None => None
      case Some(i) => Some(i + 1)
  }

  /** The list after `rt_GE_cancelar`: the first entry with handler `cb` is removed and the later
      ones close up; without such an entry the list is unchanged. */
  function RemoveFirst(l: seq<Subscription>, cb: Callback): (r: seq<Subscription>)
    ensures FindCallback(l, cb).None? ==> r == l
    ensures FindCallback(l, cb).Some? ==> |r| == |l| - 1
  {
    match FindCallback(l, cb)
    case None => l
    case Some(i) => l[..i] + l[i + 1..]
  }

  /** Cancelling keeps a valid list valid and shortens it by one exactly when the handler is present. */
  lemma {:induction false} RemoveFirstSpec(l: seq<Subscription>, cb: Callback)
    requires Sorted(l) && NoNull(l)
    ensures var r := RemoveFirst(l, cb);
      && Sorted(r) && NoNull(r)
      && |r| == (if FindCallback(l, cb).Some? then |l| - 1 else |l|)
  {
    match FindCallback(l, cb)
    case None =>
    case Some(i) =>
      var r := l[..i] + l[i + 1..];
      assert forall j :: 0 <= j < |r| ==> r[j] == (if j < i then l[j] else l[j + 1]);
  }

  /** Cancelling a handler just subscribed, which was not subscribed before, gives back the list
      as it was. */
  lemma {:induction false} CancelUndoesSubscribe(l: seq<Subscription>, e: Subscription)
    requires FindCallback(l, e.callback).None?
    ensures RemoveFirst(InsertSorted(l, e), e.callback) == l
  {
    var i := InsertPos(l, e.priority);
    var r := InsertSorted(l, e);
    assert r[i] == e;
    assert forall j :: 0 <= j < i ==> r[j] == l[j];
    FindCallbackIs(r, e.callback, i);
    assert r[..i] + r[i + 1..] == l;
  }

  lemma {:induction false} FindCallbackIs(l: seq<Subscription>, cb: Callback, i: nat)
    requires i < |l| && l[i].callback == cb
    requires forall j :: 0 <= j < i ==> l[j].callback != cb
    ensures FindCallback(l, cb) == Some(i)
  {
    match FindCallback(l, cb)
    case None =>
    case Some(k) =>
  }

  /** The calls the dispatcher makes for one event: every non-NULL entry, in table order. */
  function Invocations(l: seq<Subscription>, kind: u32, aux: u32): (r: seq<Invocation>)
    ensures |r| <= |l|
    ensures forall v :: v in r ==> v.kind == kind && v.aux == aux && v.callback != Null
  {
    if l == [] then []
    else
      var last := l[|l| - 1];
      Invocations(l[..|l| - 1], kind, aux)
        + (if last.callback != Null then [Invocation(last.callback, kind, aux)] else [])
  }

  /** On a list without NULL handlers the dispatcher calls every entry exactly once, in table
      order, i.e. in non-decreasing priority order when the list is sorted. */
  lemma {:induction false} InvocationsOfValidList(l: seq<Subscription>, kind: u32, aux: u32)
    requires NoNull(l)
    ensures |Invocations(l, kind, aux)| == |l|
    ensures forall i :: 0 <= i < |l| ==> Invocations(l, kind, aux)[i] == Invocation(l[i].callback, kind, aux)
    decreases |l|
  {
    if l != [] {
      InvocationsOfValidList(l[..|l| - 1], kind, aux);
    }
  }

  /** Subscribing A with priority 5, then B with 1, then C with 5, orders the calls B, A, C. */
  lemma PriorityTiesKeepSubscriptionOrder(a: Callback, b: Callback, c: Callback, kind: u32, aux: u32)
    requires a != Null && b != Null && c != Null
    ensures var l := InsertSorted(InsertSorted(InsertSorted([], Subscription(a, 5)), Subscription(b, 1)), Subscription(c, 5));
      Invocations(l, kind, aux) == [Invocation(b, kind, aux), Invocation(a, kind, aux), Invocation(c, kind, aux)]
  {
    var l1 := InsertSorted([], Subscription(a, 5));
    assert l1 == [Subscription(a, 5)];
    var l2 := InsertSorted(l1, Subscription(b, 1));
    assert InsertPos(l1, 1) == 0;
    assert l2 == [Subscription(b, 1), Subscription(a, 5)];
    var l3 := InsertSorted(l2, Subscription(c, 5));
    assert InsertPos(l2, 5) == 2;
    assert l3 == [Subscription(b, 1), Subscription(a, 5), Subscription(c, 5)];
    InvocationsOfValidList(l3, kind, aux);
  }

  /** The lists as the table keeps them: one per kind, each with at most `MAX_SUSCRITOS` entries,
      sorted by priority and free of NULL handlers. */
  ghost predicate ValidLists(ls: seq<seq<Subscription>>)
  {
    |ls| == EVENT_TYPES &&
    forall k :: 0 <= k < EVENT_TYPES ==> |ls[k]| <= MAX_SUSCRITOS && Sorted(ls[k]) && NoNull(ls[k])
  }

  /** The lists after `rt_GE_suscribir(kind, priority, cb)`, or None when the source halts on a
      fifth subscriber. */
  function SubscribeResult(ls: seq<seq<Subscription>>, kind: u32, priority: u8, cb: Callback): (r: Option<seq<seq<Subscription>>>)
    requires |ls| == EVENT_TYPES
    ensures r.Some? ==> |r.value| == EVENT_TYPES
    ensures r.Some? ==> forall k :: 0 <= k < EVENT_TYPES && k != kind ==> r.value[k] == ls[k]
  {
    if kind >= EVENT_TYPES || cb == Null then Some(ls)
    else if |ls[kind]| >= MAX_SUSCRITOS then None
    else Some(ls[kind := InsertSorted(ls[kind], Subscription(cb, priority))])
  }

  /** The lists after `rt_GE_cancelar(kind, cb)`. */
  function CancelResult(ls: seq<seq<Subscription>>, kind: u32, cb: Callback): (r: seq<seq<Subscription>>)
    requires |ls| == EVENT_TYPES
    ensures |r| == EVENT_TYPES
    ensures forall k :: 0 <= k < EVENT_TYPES && k != kind ==> r[k] == ls[k]
    ensures kind < EVENT_TYPES ==> |r[kind]| <= |ls[kind]|
  {
    if kind >= EVENT_TYPES || cb == Null then ls
    else ls[kind := RemoveFirst(ls[kind], cb)]
  }

  /** Subscribing halts exactly on a fifth handler for one kind, and otherwise keeps the lists
      valid: no list ever holds more than `MAX_SUSCRITOS` entries. */
  lemma {:induction false} SubscribeKeepsValid(ls: seq<seq<Subscription>>, kind: u32, priority: u8, cb: Callback)
    requires ValidLists(ls)
    ensures SubscribeResult(ls, kind, priority, cb).None? <==>
      kind < EVENT_TYPES && cb != Null && |ls[kind]| == MAX_SUSCRITOS
    ensures SubscribeResult(ls, kind, priority, cb).Some? ==> ValidLists(SubscribeResult(ls, kind, priority, cb).value)
  {
    if kind < EVENT_TYPES && cb != Null && |ls[kind]| < MAX_SUSCRITOS {
      var e := Subscription(cb, priority);
      InsertSortedLayout(ls[kind], e);
      InsertKeepsSorted(ls[kind], e);
      InsertKeepsNoNull(ls[kind], e);
    }
  }

  /** Cancelling keeps the lists valid. */
  lemma {:induction false} CancelKeepsValid(ls: seq<seq<Subscription>>, kind: u32, cb: Callback)
    requires ValidLists(ls)
    ensures ValidLists(CancelResult(ls, kind, cb))
  {
    if kind < EVENT_TYPES && cb != Null {
      RemoveFirstSpec(ls[kind], cb);
    }
  }

  /** Cancelling a handler right after subscribing it, when it was not subscribed to that kind,
      gives back the lists as they were. */
  lemma {:induction false} CancelUndoesSubscribeLists(ls: seq<seq<Subscription>>, kind: u32, priority: u8, cb: Callback)
    requires ValidLists(ls) && kind < EVENT_TYPES && cb != Null
    requires FindCallback(ls[kind], cb).None?
    requires SubscribeResult(ls, kind, priority, cb).Some?
    ensures CancelResult(SubscribeResult(ls, kind, priority, cb).value, kind, cb) == ls
  {
    CancelUndoesSubscribe(ls[kind], Subscription(cb, priority));
  }

  /** TareasSuscritas and numSuscritos, with the overflow monitor. */
  class SubscriptionTable {
    const table: array2<Subscription>
    const counts: array<nat>
    var overflowMonitor: u32
    var halted: bool        // the overflow `while (1)` has been reached
    var marks: seq<u8>      // monitor ids handed to drv_monitor_marcar (MONITOR_id_t)

    ghost predicate Shaped()
    {
      table.Length0 == EVENT_TYPES && table.Length1 == MAX_SUSCRITOS && counts.Length == EVENT_TYPES
    }

    /** The array shapes, and no count above `MAX_SUSCRITOS`. */
    ghost predicate Bounded()
      reads counts
    {
      Shaped() && forall k :: 0 <= k < EVENT_TYPES ==> counts[k] <= MAX_SUSCRITOS
    }

    ghost predicate Valid()
      reads table, counts
    {
      && Bounded()
      && (forall k :: 0 <= k < EVENT_TYPES ==> Sorted(Row(k)) && NoNull(Row(k)))
    }

    /** The subscribers of kind `k`, in table order. */
    function Row(k: nat): (r: seq<Subscription>)
      reads table, counts
      requires Shaped() && k < EVENT_TYPES && counts[k] <= MAX_SUSCRITOS
      ensures |r| == counts[k] && forall j :: 0 <= j < counts[k] ==> r[j] == table[k, j]
    {
      seq(counts[k], j requires 0 <= j < table.Length1 && k < table.Length0 reads table => table[k, j])
    }

    /** The subscriber lists of all kinds. */
    function Lists(): (ls: seq<seq<Subscription>>)
      reads table, counts
      requires Bounded()
      ensures |ls| == EVENT_TYPES && forall k :: 0 <= k < EVENT_TYPES ==> ls[k] == Row(k)
    {
      seq(EVENT_TYPES, k requires 0 <= k < EVENT_TYPES && Bounded() reads table, counts => Row(k))
    }

    /** The zero-initialised static table, before `rt_GE_iniciar`. */
    constructor ()
      ensures Valid() && fresh(table) && fresh(counts) && !halted && marks == []
      ensures forall k :: 0 <= k < EVENT_TYPES ==> Row(k) == []
    {
      table := new Subscription[EVENT_TYPES, MAX_SUSCRITOS]((_, _) => Subscription(Null, 0));
      counts := new nat[EVENT_TYPES](_ => 0);
      overflowMonitor, halted, marks := 0, false, [];
    }

    /** The table-clearing part of `rt_GE_iniciar`: records the overflow monitor, empties every
        list and resets every slot to (NULL, 255). */
    method Reset(monitorOverflow: u32)
      requires Valid()
      modifies this`overflowMonitor, table, counts
      ensures Valid() && overflowMonitor == monitorOverflow
      ensures forall k :: 0 <= k < EVENT_TYPES ==> Row(k) == []
      ensures forall k, j :: 0 <= k < EVENT_TYPES && 0 <= j < MAX_SUSCRITOS ==> table[k, j] == EMPTY_SLOT
    {
      overflowMonitor := monitorOverflow;
      var i := 0;
      while i < EVENT_TYPES
        modifies table, counts
        invariant 0 <= i <= EVENT_TYPES
        invariant forall k :: 0 <= k < i ==> counts[k] == 0
        invariant forall k, j :: 0 <= k < i && 0 <= j < MAX_SUSCRITOS ==> table[k, j] == EMPTY_SLOT
        invariant forall k :: i <= k < EVENT_TYPES ==> counts[k] == old(counts[k])
      {
        counts[i] := 0;
        var j := 0;
        while j < MAX_SUSCRITOS
          invariant 0 <= i < EVENT_TYPES && 0 <= j <= MAX_SUSCRITOS
          invariant forall k :: 0 <= k <= i ==> counts[k] == 0
          invariant forall k :: i < k < EVENT_TYPES ==> counts[k] == old(counts[k])
          invariant forall k, j' :: 0 <= k < i && 0 <= j' < MAX_SUSCRITOS ==> table[k, j'] == EMPTY_SLOT
          invariant forall j' :: 0 <= j' < j ==> table[i, j'] == EMPTY_SLOT
        {
          table[i, j] := EMPTY_SLOT;
          j := j + 1;
        }
        i := i + 1;
      }
      forall k | 0 <= k < EVENT_TYPES
        ensures Row(k) == []
      {
        assert |Row(k)| == 0;
      }
    }

    /** `rt_GE_suscribir`. An out-of-range kind or a NULL handler changes nothing. A fifth handler
        for one kind marks the overflow monitor (when its 32-bit id is nonzero; the mark receives
        the id's low 8 bits, as MONITOR_id_t) and halts. Otherwise the
        handler is inserted after every entry whose priority is at most its own. */
    method Subscribe(kind: u32, priority: u8, cb: Callback)
      requires Valid() && !halted
      modifies this`halted, this`marks, table, counts
      ensures Valid()
      ensures SubscribeResult(old(Lists()), kind, priority, cb).None? ==>
        && halted && Lists() == old(Lists())
        && marks == old(marks) + (if overflowMonitor != 0 then [overflowMonitor % 256] else [])
      ensures SubscribeResult(old(Lists()), kind, priority, cb).Some? ==>
        !halted && marks == old(marks) && Lists() == SubscribeResult(old(Lists()), kind, priority, cb).value
    {
      if kind >= EVENT_TYPES || cb == Null {
        return;
      }
      if counts[kind] >= MAX_SUSCRITOS {
        if overflowMonitor != 0 {
          marks := marks + [overflowMonitor % 256];
        }
        halted := true;
        return;
      }
      ghost var before, lists := Row(kind), Lists();
      var e := Subscription(cb, priority);
      InsertEntry(kind, e);
      OtherRowsKept(kind);
      InsertKeepsSorted(before, e);
      InsertKeepsNoNull(before, e);
      assert Lists() == lists[kind := InsertSorted(before, e)];
    }

    /** The insertion step of `rt_GE_suscribir`: `e` takes the place the shifting loop frees and
        the count goes up by one. */
    method InsertEntry(kind: nat, e: Subscription)
      requires Shaped() && kind < EVENT_TYPES && counts[kind] < MAX_SUSCRITOS
      modifies table, counts
      ensures counts[kind] == old(counts[kind]) + 1 && counts[kind] <= MAX_SUSCRITOS
      ensures Row(kind) == InsertSorted(old(Row(kind)), e)
      ensures forall k :: 0 <= k < EVENT_TYPES && k != kind ==> counts[k] == old(counts[k])
      ensures forall k, j :: 0 <= k < EVENT_TYPES && 0 <= j < MAX_SUSCRITOS && k != kind ==> table[k, j] == old(table[k, j])
    {
      ghost var before := Row(kind);
      var n := counts[kind];
      var i := ShiftUp(kind, e.priority, before);
      table[kind, i] := e;
      counts[kind] := n + 1;
      ghost var row := Row(kind);
      assert |row| == n + 1;
      assert row[i] == e;
      assert forall j :: 0 <= j < i ==> row[j] == before[j];
      assert forall j :: i < j <= n ==> row[j] == before[j - 1];
      InsertedRow(before, e, i, row);
    }

    /** The shifting loop of `rt_GE_suscribir`: from the last entry down, entries with a greater
        priority than `p` move up one place; the loop stops at the insertion point. */
    method ShiftUp(kind: nat, p: u8, ghost before: seq<Subscription>) returns (i: nat)
      requires Shaped() && kind < EVENT_TYPES && |before| == counts[kind] < MAX_SUSCRITOS
      requires forall j :: 0 <= j < |before| ==> table[kind, j] == before[j]
      modifies table
      ensures i == InsertPos(before, p)
      ensures forall j :: 0 <= j < i ==> table[kind, j] == before[j]
      ensures forall j :: i < j <= |before| ==> table[kind, j] == before[j - 1]
      ensures forall k, j :: 0 <= k < EVENT_TYPES && 0 <= j < MAX_SUSCRITOS && k != kind ==> table[k, j] == old(table[k, j])
    {
      var n := counts[kind];
      i := n;
      while i > 0 && table[kind, i - 1].priority > p
        invariant 0 <= i <= n
        invariant forall j :: i < j <= n ==> table[kind, j] == before[j - 1]
        invariant forall j :: i <= j < n ==> before[j].priority > p
        invariant forall j :: 0 <= j < i ==> table[kind, j] == before[j]
        invariant forall k, j :: 0 <= k < EVENT_TYPES && 0 <= j < MAX_SUSCRITOS && k != kind ==> table[k, j] == old(table[k, j])
        decreases i
      {
        table[kind, i] := table[kind, i - 1];
        i := i - 1;
      }
      InsertPosUnique(before, p, i);
    }

    /** `rt_GE_cancelar`. An out-of-range kind, a NULL handler or an absent handler changes
        nothing. Otherwise the first entry with that handler is removed, the later entries move
        down one place in order, and the freed last slot is reset to (NULL, 255). */
    method Cancel(kind: u32, cb: Callback)
      requires Valid()
      modifies table, counts
      ensures Valid()
      ensures Lists() == CancelResult(old(Lists()), kind, cb)
      ensures kind < EVENT_TYPES && cb != Null && FindCallback(old(Row(kind)), cb).Some? ==>
        counts[kind] == old(counts[kind]) - 1 && table[kind, old(counts[kind]) - 1] == EMPTY_SLOT
    {
      if kind >= EVENT_TYPES || cb == Null {
        return;
      }
      ghost var before, lists := Row(kind), Lists();
      var n := counts[kind];
      var i := 0;
      while i < n && table[kind, i].callback != cb
        invariant 0 <= i <= n
        invariant forall j :: 0 <= j < i ==> before[j].callback != cb
      {
        i := i + 1;
      }
      if i < n {
        FindCallbackIs(before, cb, i);
        RemoveEntry(kind, i);
        OtherRowsKept(kind);
        RemoveFirstSpec(before, cb);
        assert Lists() == lists[kind := RemoveFirst(before, cb)];
      } else {
        assert FindCallback(before, cb).None?;
      }
    }

    /** The compaction loop of `rt_GE_cancelar`: the entries after place `i` move down one place in
        order, the count drops by one and the freed last slot is reset to (NULL, 255). */
    method RemoveEntry(kind: nat, i: nat)
      requires Shaped() && kind < EVENT_TYPES && i < counts[kind] <= MAX_SUSCRITOS
      modifies table, counts
      ensures counts[kind] == old(counts[kind]) - 1
      ensures Row(kind) == old(Row(kind))[..i] + old(Row(kind))[i + 1..]
      ensures table[kind, counts[kind]] == EMPTY_SLOT
      ensures forall k :: 0 <= k < EVENT_TYPES && k != kind ==> counts[k] == old(counts[k])
      ensures forall k, j :: 0 <= k < EVENT_TYPES && 0 <= j < MAX_SUSCRITOS && k != kind ==> table[k, j] == old(table[k, j])
    {
      ghost var before := Row(kind);
      var n := counts[kind];
      var j := i;
      while j < n - 1
        modifies table
        invariant i <= j <= n - 1
        invariant forall m :: 0 <= m < i ==> table[kind, m] == before[m]
        invariant forall m :: i <= m < j ==> table[kind, m] == before[m + 1]
        invariant forall m :: j <= m < n ==> table[kind, m] == before[m]
        invariant forall k, m :: 0 <= k < EVENT_TYPES && 0 <= m < MAX_SUSCRITOS && k != kind ==> table[k, m] == old(table[k, m])
      {
        table[kind, j] := table[kind, j + 1];
        j := j + 1;
      }
      counts[kind] := n - 1;
      table[kind, n - 1] := EMPTY_SLOT;
      forall m | 0 <= m < n - 1
        ensures Row(kind)[m] == (before[..i] + before[i + 1..])[m]
      {
        if m < i {
          assert table[kind, m] == before[m];
        } else {
          assert table[kind, m] == before[m + 1];
        }
      }
      assert |Row(kind)| == n - 1;
      assert Row(kind) == before[..i] + before[i + 1..];
    }

    /** Rows other than `kind` read as before when their counts and cells were not touched. */
    twostate lemma OtherRowsKept(kind: nat)
      requires old(Bounded()) && kind < EVENT_TYPES
      requires forall k :: 0 <= k < EVENT_TYPES && k != kind ==> counts[k] == old(counts[k])
      requires forall k, j :: 0 <= k < EVENT_TYPES && k != kind && 0 <= j < MAX_SUSCRITOS ==> table[k, j] == old(table[k, j])
      ensures forall k :: 0 <= k < EVENT_TYPES && k != kind ==> counts[k] <= MAX_SUSCRITOS && Row(k) == old(Row(k))
    {
    }

    /** The dispatch loop of `rt_GE_lanzador` for one popped event: kinds out of range are
        dropped; otherwise every non-NULL subscriber is called with (kind, aux) in table order. */
    method Dispatch(kind: u32, aux: u32) returns (calls: seq<Invocation>)
      requires Valid()
      ensures kind >= EVENT_TYPES ==> calls == []
      ensures kind < EVENT_TYPES ==>
        && |calls| == |Row(kind)|
        && forall i :: 0 <= i < |calls| ==> calls[i] == Invocation(Row(kind)[i].callback, kind, aux)
    {
      calls := [];
      if kind < EVENT_TYPES {
        var i := 0;
        while i < counts[kind]
          invariant 0 <= i <= counts[kind]
          invariant calls == Invocations(Row(kind)[..i], kind, aux)
        {
          if table[kind, i].callback != Null {
            calls := calls + [Invocation(table[kind, i].callback, kind, aux)];
          }
          assert Row(kind)[..i + 1][..i] == Row(kind)[..i];
          i := i + 1;
        }
        assert Row(kind)[..i] == Row(kind);
        InvocationsOfValidList(Row(kind), kind, aux);
      }
    }
  }
}
