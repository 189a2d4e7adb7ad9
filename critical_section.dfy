/**
 * The nesting critical section (src/drv_SC.c): a 32-bit nesting counter and the
 * global interrupt gate it drives through the collaborator `hal_SC`.
 */
module CriticalSection {
  import opened Events

  /** The observable state of the critical section: nesting depth and interrupt gate. */
  datatype State = State(depth: u32, irqEnabled: bool)

  /** `drv_SC_entrar_disable_irq`: disables interrupts and post-increments the 32-bit counter. */
  function EnterStep(s: State): (r: State)
    ensures !r.irqEnabled
    ensures r.depth == (s.depth + 1) % U32_MODULUS
  {
    State((s.depth + 1) % U32_MODULUS, false)
  }

  /** `drv_SC_salir_enable_irq`: decrements the counter (no guard at zero, so it wraps)
      and re-enables interrupts only when the counter reaches zero. */
  function ExitStep(s: State): (r: State)
    ensures r.depth == (s.depth + U32_MODULUS - 1) % U32_MODULUS
    ensures r.irqEnabled == (r.depth == 0 || s.irqEnabled)
  {
    var d := if s.depth == 0 then U32_MODULUS - 1 else s.depth - 1;
    State(d, if d == 0 then true else s.irqEnabled)
  }

  datatype Op = Enter | Exit

  /** Runs a sequence of enters and exits from state `s`. */
  function Run(s: State, ops: seq<Op>): State
    decreases |ops|
  {
    if ops == [] then s
    else Run(if ops[0] == Enter then EnterStep(s) else ExitStep(s), ops[1..])
  }

  function Repeat(op: Op, n: nat): (r: seq<Op>)
    ensures |r| == n && forall i :: 0 <= i < n ==> r[i] == op
  {
    if n == 0 then [] else [op] + Repeat(op, n - 1)
  }

  /** n enters from depth d (no wrap) reach depth d + n with interrupts disabled. */
  lemma {:induction false} EntersNest(s: State, n: nat)
    requires n >= 1 && s.depth + n < U32_MODULUS
    ensures Run(s, Repeat(Enter, n)) == State(s.depth + n, false)
    decreases n
  {
    var ops := Repeat(Enter, n);
    assert ops[0] == Enter && ops[1..] == Repeat(Enter, n - 1);
    var s' := EnterStep(s);
    assert s' == State(s.depth + 1, false);
    assert Run(s, ops) == Run(s', Repeat(Enter, n - 1));
    if n > 1 {
      EntersNest(s', n - 1);
    }
  }

  /** n exits from depth d + n (with interrupts disabled) reach depth d; the gate opens only
      if d is zero, i.e. only at the outermost exit. */
  lemma {:induction false} ExitsUnnest(d: nat, n: nat)
    requires d + n < U32_MODULUS
    ensures Run(State(d + n, false), Repeat(Exit, n)) == State(d, n >= 1 && d == 0)
  {
    var ops := Repeat(Exit, n);
    if n >= 1 {
      assert ops[0] == Exit && ops[1..] == Repeat(Exit, n - 1);
      var s' := ExitStep(State(d + n, false));
      assert s' == State(d + n - 1, n == 1 && d == 0);
      assert Run(State(d + n, false), ops) == Run(s', Repeat(Exit, n - 1));
      if n > 1 {
        ExitsUnnest(d, n - 1);
      }
    } else {
      assert ops == [];
    }
  }

  lemma {:induction false} RunAppend(s: State, a: seq<Op>, b: seq<Op>)
    ensures Run(s, a + b) == Run(Run(s, a), b)
    decreases |a|
  {
    if a == [] {
      assert a + b == b;
    } else {
      assert (a + b)[0] == a[0] && (a + b)[1..] == a[1..] + b;
      RunAppend(if a[0] == Enter then EnterStep(s) else ExitStep(s), a[1..], b);
    }
  }

  /** A balanced sequence of n >= 1 enters followed by n exits restores the starting depth;
      interrupts end enabled exactly when that depth is zero. */
  lemma BalancedRestores(s: State, n: nat)
    requires n >= 1 && s.depth + n < U32_MODULUS
    ensures Run(s, Repeat(Enter, n) + Repeat(Exit, n)) == State(s.depth, s.depth == 0)
  {
    RunAppend(s, Repeat(Enter, n), Repeat(Exit, n));
    EntersNest(s, n);
    ExitsUnnest(s.depth, n);
  }

  /** After n enters, interrupts stay disabled through every exit but the outermost one. */
  lemma InnerExitsKeepDisabled(s: State, n: nat, k: nat)
    requires k < n && s.depth + n < U32_MODULUS
    ensures !Run(s, Repeat(Enter, n) + Repeat(Exit, k)).irqEnabled
  {
    RunAppend(s, Repeat(Enter, n), Repeat(Exit, k));
    EntersNest(s, n);
    var d := s.depth + n - k;
    assert d + k == s.depth + n;
    ExitsUnnest(d, k);
  }

  /** The critical section as the source keeps it: one counter and the interrupt gate. */
  class Section {
    var depth: u32
    var irqEnabled: bool

    function Current(): State reads this { State(depth, irqEnabled) }

    /** Start-up state: counter zero (static initialiser), interrupts enabled. */
    constructor ()
      ensures depth == 0 && irqEnabled
    {
      depth := 0;
      irqEnabled := true;
    }

    /** `drv_SC_entrar_disable_irq`: returns the depth before the call. */
    method Enter() returns (previous: u32)
      modifies this
      ensures previous == old(depth)
      ensures Current() == EnterStep(old(Current()))
    {
      irqEnabled := false;
      previous := depth;
      depth := (depth + 1) % U32_MODULUS;
    }

    /** `drv_SC_salir_enable_irq`. */
    method Exit()
      modifies this
      ensures Current() == ExitStep(old(Current()))
    {
      depth := if depth == 0 then U32_MODULUS - 1 else depth - 1;
      if depth == 0 {
        irqEnabled := true;
      }
    }
  }

  /** One enter followed by one exit leaves the depth as it was, and interrupts enabled exactly
      when that depth is zero: the bracket every queue and dispatcher operation uses. */
  lemma {:induction false} BracketRestores(s: State)
    ensures ExitStep(EnterStep(s)) == State(s.depth, s.depth == 0)
  {
  }
}
