/** The two contexts of an orchestrator, the caller's and its own, and how it looks at them. */
module ContextReads {
  import opened Basics

  datatype Verdict = GoesOn | Cancels | TimesOut

  /** The reads one look makes, each at its own moment. */
  const READS := 4

  datatype Contexts = Contexts(parent: nat -> ContextError, path: nat -> ContextError) {
    /** Contexts are sticky. Only the claims about verdicts need it. */
    ghost predicate Valid() { Sticky(parent) && Sticky(path) }

    /** The orchestrator's own context is cancelled only through the caller's. */
    ghost predicate Inherits() {
      forall t: nat :: path(t) == Canceled ==> parent(t) == Canceled
    }

    /** `terminalContext`. */
    function Look(now: nat): Verdict {
      if parent(now) == Canceled then Cancels
      else if parent(now + 1) != Live || path(now + 2) == DeadlineExceeded then TimesOut
      else if path(now + 3) == Canceled then Cancels
      else GoesOn
    }

    /** The second read of the caller's context, or the first of the path's, met a deadline. */
    predicate DeadlineSeen(now: nat) {
      parent(now + 1) == DeadlineExceeded || (parent(now + 1) == Live && path(now + 2) == DeadlineExceeded)
    }
  }

  /** A cancelled verdict means the caller cancelled, and no verdict that both contexts were live. */
  lemma LookIsRight(c: Contexts, now: nat)
    requires c.Valid() && c.Inherits()
    ensures c.Look(now) == Cancels ==> c.parent(now + 3) == Canceled
    ensures c.Look(now) == GoesOn ==> c.parent(now) == Live && c.path(now) == Live
  {
    StaysEnded(c.parent, now, now + 1);
    StaysEnded(c.parent, now, now + 3);
    StaysEnded(c.path, now, now + 2);
    StaysEnded(c.path, now, now + 3);
  }

  lemma LiveWhenItGoesOn(c: Contexts, now: nat)
    requires c.Valid() && c.Look(now) == GoesOn
    ensures c.parent(now) == Live && c.path(now) == Live
  {
    StaysEnded(c.parent, now, now + 1);
    StaysEnded(c.path, now, now + 2);
    StaysEnded(c.path, now, now + 3);
  }

  /** A look reports a timeout without having met a deadline exactly when the caller cancelled
      between its first two reads. */
  lemma FalseTimeoutExactly(c: Contexts, now: nat)
    requires c.Valid()
    ensures c.Look(now) == TimesOut && !c.DeadlineSeen(now)
       <==> c.parent(now) == Live && c.parent(now + 1) == Canceled
  {
    StaysEnded(c.parent, now, now + 1);
  }

  /** A caller that cancels at one moment. */
  function CancelledAt(moment: nat): Contexts {
    var context := (t: nat) => if t < moment then Live else Canceled;
    Contexts(context, context)
  }

  /** The race exists: a plain cancellation, seen as a timeout by the look that it overtakes. */
  lemma CancellationCanLookLikeATimeout(now: nat)
    ensures var c := CancelledAt(now + 1);
      c.Valid() && c.Inherits() && c.Look(now) == TimesOut && forall t: nat :: c.parent(t) != DeadlineExceeded
  {
  }
}
