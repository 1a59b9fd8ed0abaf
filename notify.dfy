/**
 * The checked-state setter seen from the listener: while the widget is
 * broadcasting, the listener's own `setChecked` calls change the state but
 * notify nobody, and each one that changes the value asks for one redraw.
 */
module Notify {

  /** The checked state after the nested calls `vs` made from state `cur`. */
  function Final(cur: bool, vs: seq<bool>): bool
  {
    if vs == [] then cur else vs[|vs| - 1]
  }

  /**
   * How many of the nested calls `vs`, made one after the other from state
   * `cur`, change the state (and so redraw): never more than there are
   * calls, and none exactly when every call asks for the state already held.
   */
  function Changes(cur: bool, vs: seq<bool>): (n: nat)
    ensures n <= |vs|
    ensures n == 0 <==> forall i :: 0 <= i < |vs| ==> vs[i] == cur
    decreases |vs|
  {
    if vs == [] then 0
    else (if vs[0] == cur then 0 else 1) + Changes(vs[0], vs[1..])
  }

  /** One more nested call redraws exactly when it changes the state reached so far. */
  lemma {:induction false} ChangesSnoc(cur: bool, vs: seq<bool>, v: bool)
    ensures Changes(cur, vs + [v]) == Changes(cur, vs) + (if v == Final(cur, vs) then 0 else 1)
    decreases |vs|
  {
    if vs != [] {
      assert (vs + [v])[1..] == vs[1..] + [v];
      ChangesSnoc(vs[0], vs[1..], v);
    }
  }
}
