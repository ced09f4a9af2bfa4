/** Runs of a deterministic machine: a list of steps applied one after the other. */
module Trace {

  function Run<S, A>(apply: (S, A) -> S, s: S, steps: seq<A>): (t: S)
    decreases |steps|
  {
    if steps == [] then s else Run(apply, apply(s, steps[0]), steps[1..])
  }

  lemma {:induction false} RunConcat<S, A>(apply: (S, A) -> S, s: S, a: seq<A>, b: seq<A>)
    ensures Run(apply, s, a + b) == Run(apply, Run(apply, s, a), b)
    decreases |a|
  {
    if a == [] {
      assert a + b == b;
    } else {
      assert (a + b)[1..] == a[1..] + b;
      RunConcat(apply, apply(s, a[0]), a[1..], b);
    }
  }

  lemma RunOne<S, A>(apply: (S, A) -> S, s: S, a: A)
    ensures Run(apply, s, [a]) == apply(s, a)
  {
    assert [a][1..] == [];
  }

  lemma RunTwo<S, A>(apply: (S, A) -> S, s: S, a: A, b: A)
    ensures Run(apply, s, [a, b]) == apply(apply(s, a), b)
  {
    assert [a, b][1..] == [b];
    RunOne(apply, apply(s, a), b);
  }

  lemma RunCons<S, A>(apply: (S, A) -> S, s: S, a: A, rest: seq<A>)
    ensures Run(apply, s, [a] + rest) == Run(apply, apply(s, a), rest)
  {
    assert ([a] + rest)[1..] == rest;
  }

  /** The last step of a run. */
  lemma RunLast<S, A>(apply: (S, A) -> S, s: S, steps: seq<A>, a: A)
    ensures Run(apply, s, steps + [a]) == apply(Run(apply, s, steps), a)
  {
    RunConcat(apply, s, steps, [a]);
    RunOne(apply, Run(apply, s, steps), a);
  }

  /** What every step keeps, every run keeps. */
  lemma {:induction false} RunKeeps<S(!new), A(!new)>(apply: (S, A) -> S, inv: S -> bool, s: S, steps: seq<A>)
    requires inv(s) && forall x, a :: inv(x) ==> inv(apply(x, a))
    ensures inv(Run(apply, s, steps))
    decreases |steps|
  {
    if steps != [] {
      RunKeeps(apply, inv, apply(s, steps[0]), steps[1..]);
    }
  }

  function Repeat<A>(a: A, n: nat): (steps: seq<A>)
  {
    if n == 0 then [] else [a] + Repeat(a, n - 1)
  }

  /** A step that brings the machine nearer to rest without changing where it will end, and does nothing at rest,
      ends there when repeated often enough. */
  lemma {:induction false} RunUntil<S(!new), A>(apply: (S, A) -> S, a: A, inv: S -> bool, rest: S -> bool,
                                                work: S -> nat, end: S -> S, s: S, n: nat)
    requires inv(s) && n >= work(s)
    requires forall x :: inv(x) && rest(x) ==> apply(x, a) == x && end(x) == x
    requires forall x :: inv(x) && !rest(x) ==>
               inv(apply(x, a)) && work(apply(x, a)) < work(x) && end(apply(x, a)) == end(x)
    ensures Run(apply, s, Repeat(a, n)) == end(s) && rest(end(s)) && inv(end(s))
    decreases n
  {
    if n > 0 {
      assert Repeat(a, n)[1..] == Repeat(a, n - 1);
      if rest(s) {
        AtRest(apply, a, s, n);
      } else {
        RunUntil(apply, a, inv, rest, work, end, apply(s, a), n - 1);
      }
    } else if !rest(s) {
      assert false;
    }
  }

  lemma {:induction false} AtRest<S, A>(apply: (S, A) -> S, a: A, s: S, n: nat)
    requires apply(s, a) == s
    ensures Run(apply, s, Repeat(a, n)) == s
  {
    if n > 0 {
      assert Repeat(a, n)[1..] == Repeat(a, n - 1);
      AtRest(apply, a, s, n - 1);
    }
  }
}
