// The stack-budget guard: a walk that came too deep is never taken for a whole one.

module StackGuard {
  import opened Wrappers

  const RED_ZONE: nat := 256 * 1024
  const FALLBACK_BUDGET: nat := 1024 * 1024
  const ADDRESS_MAX: nat := 0xFFFF_FFFF_FFFF_FFFF

  type Address = a: nat | a <= ADDRESS_MAX

  datatype Error = Defer | Failed(message: string)

  /** A walk: every frame takes stack, emits its own text, and goes on to its children. */
  datatype Frame = Frame(text: string, stack: nat, children: seq<Frame>)

  /** What an extraction is given: a tree that failed to parse, or one to walk, after which it may fail by itself. */
  datatype Source = Unparsed(message: string) | Parsed(root: Frame, failure: Option<string>)

  function SaturatingAdd(a: Address, b: nat): Address { if a + b <= ADDRESS_MAX then a + b else ADDRESS_MAX }

  function SaturatingSub(a: int, b: nat): nat { if b <= a then a - b else 0 }

  /** The threshold a run starts under: the stack's low end, or a fixed descent from the entry. */
  function ThresholdFor(osLow: Option<Address>, sp: int): (t: nat)
    ensures t > 0
  {
    match osLow
    case Some(low) => SaturatingAdd(low, RED_ZONE)
    case None => var t := SaturatingSub(sp, FALLBACK_BUDGET); if t < 1 then 1 else t
  }

  // ---------------------------------------------------------------- the walk, with and without guards

  function Unguarded(n: Frame): seq<string>
    decreases n, 1
  {
    [n.text] + UnguardedAll(n.children, 0)
  }

  function UnguardedAll(ns: seq<Frame>, i: nat): seq<string>
    decreases ns, 0, |ns| - i
  {
    if i >= |ns| then [] else Unguarded(ns[i]) + UnguardedAll(ns, i + 1)
  }

  /** Some frame of the whole walk, entered from `sp`, lies below the threshold. */
  ghost predicate PassesBelow(n: Frame, sp: int, threshold: nat)
    decreases n, 1
  {
    sp - n.stack < threshold || PassesBelowAny(n.children, sp - n.stack, threshold)
  }

  ghost predicate PassesBelowAny(ns: seq<Frame>, sp: int, threshold: nat)
    decreases ns, 0
  {
    exists k :: 0 <= k < |ns| && PassesBelow(ns[k], sp, threshold)
  }

  /** What the guarded walk emits, and whether any frame tripped. */
  function Guarded(n: Frame, sp: int, threshold: nat): (seq<string>, bool)
    decreases n, 1
  {
    if sp - n.stack < threshold then ([], true)
    else
      var rest := GuardedAll(n.children, 0, sp - n.stack, threshold);
      ([n.text] + rest.0, rest.1)
  }

  function GuardedAll(ns: seq<Frame>, i: nat, sp: int, threshold: nat): (seq<string>, bool)
    decreases ns, 0, |ns| - i
  {
    if i >= |ns| then ([], false)
    else
      var first, rest := Guarded(ns[i], sp, threshold), GuardedAll(ns, i + 1, sp, threshold);
      (first.0 + rest.0, first.1 || rest.1)
  }

  /** The guard trips exactly if the unguarded walk would pass below; untripped, nothing is missing. */
  lemma {:induction false} GuardedExact(n: Frame, sp: int, threshold: nat)
    ensures Guarded(n, sp, threshold).1 <==> PassesBelow(n, sp, threshold)
    ensures !Guarded(n, sp, threshold).1 ==> Guarded(n, sp, threshold).0 == Unguarded(n)
    decreases n, 1
  {
    if sp - n.stack >= threshold {
      GuardedAllExact(n.children, 0, sp - n.stack, threshold);
    }
  }

  lemma {:induction false} GuardedAllExact(ns: seq<Frame>, i: nat, sp: int, threshold: nat)
    ensures GuardedAll(ns, i, sp, threshold).1 <==> exists k :: i <= k < |ns| && PassesBelow(ns[k], sp, threshold)
    ensures !GuardedAll(ns, i, sp, threshold).1 ==> GuardedAll(ns, i, sp, threshold).0 == UnguardedAll(ns, i)
    decreases ns, 0, |ns| - i
  {
    if i < |ns| {
      GuardedExact(ns[i], sp, threshold);
      GuardedAllExact(ns, i + 1, sp, threshold);
    }
  }

  // ---------------------------------------------------------------- what a run returns

  /** The outcome of a run, whatever ran on the thread before. */
  function Outcome(source: Source, sp: int, threshold: nat): Result<seq<string>, Error> {
    match source
    case Unparsed(message) => Err(Failed(message))
    case Parsed(root, failure) =>
      var walked := Guarded(root, sp, threshold);
      if walked.1 then Err(Defer) else if failure.Some? then Err(Failed(failure.value)) else Ok(walked.0)
  }

  /**
   * Defer means that some frame would have passed the threshold, whatever the
   * walk produced, its own error included; otherwise the outcome is that of the
   * whole walk, unguarded.
   */
  lemma NeverTruncated(source: Source, sp: int, threshold: nat)
    ensures var r := Outcome(source, sp, threshold);
            if source.Unparsed? then r == Err(Failed(source.message))
            else if PassesBelow(source.root, sp, threshold) then r == Err(Defer)
            else if source.failure.Some? then r == Err(Failed(source.failure.value))
            else r == Ok(Unguarded(source.root))
  {
    if source.Parsed? {
      GuardedExact(source.root, sp, threshold);
    }
  }

  // ---------------------------------------------------------------- how much stack a run may use

  /** The most stack in use at once during the whole walk. */
  function Deepest(n: Frame): nat
    decreases n, 1
  {
    n.stack + DeepestOf(n.children, 0)
  }

  function DeepestOf(ns: seq<Frame>, i: nat): nat
    decreases ns, 0, |ns| - i
  {
    if i >= |ns| then 0
    else
      var first, rest := Deepest(ns[i]), DeepestOf(ns, i + 1);
      if first > rest then first else rest
  }

  lemma {:induction false} PassesByDepth(n: Frame, sp: int, threshold: nat)
    ensures PassesBelow(n, sp, threshold) <==> sp - Deepest(n) < threshold
    decreases n, 1
  {
    PassesByDepthAny(n.children, 0, sp - n.stack, threshold);
  }

  lemma {:induction false} PassesByDepthAny(ns: seq<Frame>, i: nat, sp: int, threshold: nat)
    ensures (sp < threshold || exists k :: i <= k < |ns| && PassesBelow(ns[k], sp, threshold))
       <==> sp - DeepestOf(ns, i) < threshold
    decreases ns, 0, |ns| - i
  {
    if i < |ns| {
      PassesByDepth(ns[i], sp, threshold);
      PassesByDepthAny(ns, i + 1, sp, threshold);
    }
  }

  /**
   * A parsed source is deferred exactly if its walk would come nearer than 256
   * KiB to the low end of the stack, where the system tells that (below the last
   * address, if those do not fit); else exactly if it would use more than 1 MiB
   * below the entry, or reach address zero.
   */
  lemma DeferExactly(root: Frame, failure: Option<string>, sp: int, osLow: Option<Address>)
    ensures Outcome(Parsed(root, failure), sp, ThresholdFor(osLow, sp)) == Err(Defer)
       <==> if osLow.Some? then sp - Deepest(root) < osLow.value + 262144 && sp - Deepest(root) < 0xFFFF_FFFF_FFFF_FFFF
            else Deepest(root) > 1048576 || sp <= Deepest(root)
  {
    NeverTruncated(Parsed(root, failure), sp, ThresholdFor(osLow, sp));
    PassesByDepth(root, sp, ThresholdFor(osLow, sp));
  }

  // ---------------------------------------------------------------- the thread's cells

  class Thread {
    const osLow: Option<Address>
    var threshold: nat
    var thresholdIsOs: bool
    var overflowed: bool

    constructor (osLow: Option<Address>)
      ensures Valid() && this.osLow == osLow
    {
      this.osLow := osLow;
      threshold, thresholdIsOs, overflowed := 0, false, false;
    }

    /** A cached threshold is the one the operating system's bounds give. */
    ghost predicate Valid()
      reads this
    {
      thresholdIsOs ==> osLow.Some? && threshold == SaturatingAdd(osLow.value, RED_ZONE)
    }

    method Begin(sp: int)
      requires Valid()
      modifies this
      ensures Valid() && !overflowed && threshold == ThresholdFor(osLow, sp)
    {
      overflowed := false;
      if threshold != 0 && thresholdIsOs {
        return;
      }
      match osLow {
        case Some(low) =>
          threshold := SaturatingAdd(low, RED_ZONE);
          thresholdIsOs := true;
        case None =>
          var t := SaturatingSub(sp, FALLBACK_BUDGET);
          threshold := if t < 1 then 1 else t;
          thresholdIsOs := false;
      }
    }

    /** Latches when the frame is below the threshold; a thread that never began begins here. */
    method Exhausted(sp: int) returns (tripped: bool)
      requires Valid()
      modifies this
      ensures Valid() && threshold == (if old(threshold) == 0 then ThresholdFor(osLow, sp) else old(threshold))
      ensures tripped == (sp < threshold)
      ensures overflowed == (tripped || (old(threshold) != 0 && old(overflowed)))
    {
      if threshold == 0 {
        Begin(sp);
      }
      tripped := sp < threshold;
      if tripped {
        overflowed := true;
      }
    }

    /** One recursive walker function, with the guard at its top. */
    method Walk(n: Frame, sp: int) returns (out: seq<string>)
      requires Valid() && threshold > 0
      modifies this
      ensures Valid() && threshold == old(threshold)
      ensures out == Guarded(n, sp, threshold).0
      ensures overflowed == (old(overflowed) || Guarded(n, sp, threshold).1)
      decreases n
    {
      var here := sp - n.stack;
      var tripped := Exhausted(here);
      if tripped {
        return [];
      }
      out := [n.text];
      var i := 0;
      while i < |n.children|
        invariant i <= |n.children| && Valid() && threshold == old(threshold)
        invariant Guarded(n, sp, threshold).0 == out + GuardedAll(n.children, i, here, threshold).0
        invariant (old(overflowed) || Guarded(n, sp, threshold).1)
               == (overflowed || GuardedAll(n.children, i, here, threshold).1)
      {
        ghost var was, all := out, GuardedAll(n.children, i, here, threshold);
        var more := Walk(n.children[i], here);
        out := out + more;
        i := i + 1;
        assert was + all.0 == out + GuardedAll(n.children, i, here, threshold).0;
      }
    }

    /** run_guarded: no earlier run shows in the result. */
    method RunGuarded(source: Source, sp: int) returns (r: Result<seq<string>, Error>)
      requires Valid()
      modifies this
      ensures Valid() && r == Outcome(source, sp, ThresholdFor(osLow, sp))
    {
      Begin(sp);
      match source {
        case Unparsed(message) => r := Err(Failed(message));
        case Parsed(root, failure) =>
          var out := Walk(root, sp);
          r := if failure.Some? then Err(Failed(failure.value)) else Ok(out);
      }
      if overflowed {
        r := Err(Defer);
      }
    }
  }
}
