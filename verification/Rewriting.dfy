/**
 Runs of a loop that rewrites a text step by step, from left to right: while there is something to rewrite in a
 text, what stands behind it plays no part.
 */
module Rewriting {
  import opened Base

  datatype Step = Done | Missing(name: string) | Continue(next: string)

  type Stepper = string -> Step

  /** The loop ends within `n` steps, with a result or with a missing name. */
  predicate EndsAs(s: string, step: Stepper, n: nat, ok: bool)
    decreases n
  {
    match step(s)
    case Done => ok
    case Missing(_) => !ok
    case Continue(next) => n > 0 && EndsAs(next, step, n - 1, ok)
  }

  /** A step inside `w` is the same with `t` behind it. */
  predicate ExtendsTo(step: Stepper, w: string, t: string) {
    match step(w)
    case Done => true
    case Missing(name) => step(w + t) == Missing(name)
    case Continue(next) => step(w + t) == Continue(next + t)
  }

  ghost predicate Extends(step: Stepper) {
    forall w, t :: ExtendsTo(step, w, t)
  }

  /** A step inside `t` is the same with `p` before it. */
  predicate PassesTo(step: Stepper, p: string, t: string) {
    match step(t)
    case Continue(next) => step(p + t) == Continue(p + next)
    case other => step(p + t) == other
  }

  /** `p` takes no part in any step. */
  ghost predicate Passes(step: Stepper, p: string) {
    forall t :: PassesTo(step, p, t)
  }

  /** A good text stays good, and takes no part once it is done. */
  ghost predicate GoodStep(step: Stepper, good: string -> bool, w: string) {
    good(w) ==>
      match step(w)
      case Done => Passes(step, w)
      case Missing(_) => true
      case Continue(next) => good(next)
  }

  ghost predicate Closed(step: Stepper, good: string -> bool) {
    forall w :: GoodStep(step, good, w)
  }

  lemma {:induction false} EndsOneWay(s: string, step: Stepper, n: nat, ok: bool)
    requires EndsAs(s, step, n, ok)
    ensures !EndsAs(s, step, n, !ok)
    decreases n
  {
    if step(s).Continue? {
      EndsOneWay(step(s).next, step, n - 1, ok);
    }
  }

  lemma {:induction false} EndsLonger(s: string, step: Stepper, m: nat, n: nat, ok: bool)
    requires EndsAs(s, step, m, ok) && m <= n
    ensures EndsAs(s, step, n, ok)
    decreases m
  {
    if step(s).Continue? {
      EndsLonger(step(s).next, step, m - 1, n - 1, ok);
    }
  }

  lemma {:induction false} EndsBehind(p: string, t: string, step: Stepper, n: nat, ok: bool)
    requires Passes(step, p)
    ensures EndsAs(p + t, step, n, ok) <==> EndsAs(t, step, n, ok)
    decreases n
  {
    assert PassesTo(step, p, t);
    if step(t).Continue? && n > 0 {
      EndsBehind(p, step(t).next, step, n - 1, ok);
    }
  }

  /** A missing name in `w` ends the loop before it comes to `t`. */
  lemma {:induction false} FirstFails(w: string, t: string, step: Stepper, n: nat)
    requires Extends(step) && EndsAs(w, step, n, false)
    ensures EndsAs(w + t, step, n, false)
    decreases n
  {
    assert ExtendsTo(step, w, t);
    if step(w).Continue? {
      FirstFails(step(w).next, t, step, n - 1);
    }
  }

  /** Otherwise the loop goes on with `t`. */
  lemma {:induction false} FirstThenSecond(w: string, t: string, step: Stepper, good: string -> bool, m: nat, n: nat, ok: bool)
    requires Extends(step) && Closed(step, good) && good(w)
    requires EndsAs(w, step, m, true) && EndsAs(t, step, n, ok)
    ensures EndsAs(w + t, step, m + n, ok)
    decreases m
  {
    assert ExtendsTo(step, w, t) && GoodStep(step, good, w);
    if step(w).Continue? {
      FirstThenSecond(step(w).next, t, step, good, m - 1, n, ok);
    } else {
      EndsLonger(t, step, n, m + n, ok);
      EndsBehind(w, t, step, m + n, ok);
    }
  }

  lemma {:induction false} SecondEnds(w: string, t: string, step: Stepper, good: string -> bool, m: nat, n: nat, ok: bool)
    requires Extends(step) && Closed(step, good) && good(w)
    requires EndsAs(w, step, m, true) && EndsAs(w + t, step, n, ok)
    ensures EndsAs(t, step, n, ok)
    decreases m
  {
    assert ExtendsTo(step, w, t) && GoodStep(step, good, w);
    if step(w).Continue? {
      SecondEnds(step(w).next, t, step, good, m - 1, n - 1, ok);
      EndsLonger(t, step, n - 1, n, ok);
    } else {
      EndsBehind(w, t, step, n, ok);
    }
  }

  lemma {:induction false} FirstEnds(w: string, t: string, step: Stepper, n: nat, ok: bool) returns (first: bool)
    requires Extends(step) && EndsAs(w + t, step, n, ok)
    ensures EndsAs(w, step, n, first)
    decreases n
  {
    assert ExtendsTo(step, w, t);
    if step(w).Continue? {
      first := FirstEnds(step(w).next, t, step, n - 1, ok);
    } else {
      first := step(w).Done?;
    }
  }

  // ----- a step that puts `v` in the place of something between `pre` and `post` -----

  predicate Inserts(step: Stepper, s: string, pre: string, v: string, post: string) {
    step(s) == Continue(pre + (v + post))
  }

  lemma BehindPre(s: string, pre: string, v: string, post: string, step: Stepper, n: nat, ok: bool)
    requires Inserts(step, s, pre, v, post) && Passes(step, pre)
    ensures EndsAs(s, step, n, ok) <==> n > 0 && EndsAs(v + post, step, n - 1, ok)
  {
    if n > 0 {
      EndsBehind(pre, v + post, step, n - 1, ok);
    }
  }

  /** The loop ends as the inserted text does, or as the rest does where the inserted text ends with a result. */
  lemma EndsByParts(s: string, pre: string, v: string, post: string, step: Stepper, good: string -> bool,
                    m: nat, n: nat, first: bool, ok: bool) returns (k: nat)
    requires Inserts(step, s, pre, v, post) && Passes(step, pre) && Extends(step) && Closed(step, good) && good(v)
    requires EndsAs(v, step, m, first) && if first then EndsAs(post, step, n, ok) else !ok
    ensures EndsAs(s, step, k, ok)
  {
    if first {
      FirstThenSecond(v, post, step, good, m, n, ok);
      k := m + n + 1;
    } else {
      FirstFails(v, post, step, m);
      k := m + 1;
    }
    BehindPre(s, pre, v, post, step, k, ok);
  }

  /** The inserted text ends first, and unless it fails the rest ends as the whole does. */
  lemma InsertedEnds(s: string, pre: string, v: string, post: string, step: Stepper, good: string -> bool, n: nat, ok: bool)
    returns (first: bool)
    requires Inserts(step, s, pre, v, post) && Passes(step, pre) && Extends(step) && Closed(step, good) && good(v)
    requires EndsAs(s, step, n, ok)
    ensures n > 0 && EndsAs(v, step, n - 1, first)
    ensures if first then EndsAs(post, step, n, ok) else !ok
  {
    BehindPre(s, pre, v, post, step, n, ok);
    first := FirstEnds(v, post, step, n - 1, ok);
    if first {
      SecondEnds(v, post, step, good, n - 1, n - 1, ok);
      EndsLonger(post, step, n - 1, n, ok);
    } else {
      FirstFails(v, post, step, n - 1);
      if ok {
        EndsOneWay(v + post, step, n - 1, ok);
      }
    }
  }
}
