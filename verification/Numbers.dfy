/** Numbers nobody has used yet. */
module Numbers {
  lemma {:induction false} Above(used: set<nat>) returns (bound: nat)
    ensures forall u :: u in used ==> u < bound
  {
    if used == {} {
      bound := 0;
    } else {
      var u :| u in used;
      var rest := Above(used - {u});
      bound := if u < rest then rest else u + 1;
      assert forall v :: v in used ==> v == u || v in used - {u};
    }
  }
}
