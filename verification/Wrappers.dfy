/** What every module shares: an optional value, a value or an error, service names, and a condition as a count. */
module Wrappers {
  datatype Option<+T> = None | Some(value: T)

  datatype Result<+T, +E> = Ok(value: T) | Err(error: E)

  type Name = string

  function AsNat(b: bool): nat {
    if b then 1 else 0
  }

  /** Takes the actions one after the other, as long as each of them is possible. */
  function Fold<S, A>(step: (S, A) -> Option<S>, start: S, actions: seq<A>): Option<S> {
    if actions == [] then Some(start)
    else
      var before := Fold(step, start, actions[..|actions| - 1]);
      if before.None? then None else step(before.value, actions[|actions| - 1])
  }

  lemma FoldOne<S, A>(step: (S, A) -> Option<S>, start: S, action: A)
    ensures Fold(step, start, [action]) == step(start, action)
  {
    assert [action][..0] == [];
    assert Fold(step, start, []) == Some(start);
  }

  lemma {:induction false} FoldThen<S, A>(step: (S, A) -> Option<S>, start: S, actions: seq<A>, now: S, more: seq<A>)
    requires Fold(step, start, actions) == Some(now)
    ensures Fold(step, start, actions + more) == Fold(step, now, more)
  {
    if more == [] {
      assert actions + more == actions;
    } else {
      var n := |more| - 1;
      FoldThen(step, start, actions, now, more[..n]);
      assert (actions + more)[..|actions| + n] == actions + more[..n];
    }
  }
}
