/**
 * The dictionary a loop `for (k, v) in pairs: d[k] = v` builds from an empty
 * dictionary: every key of the pairs, bound to the value of its last occurrence.
 * Both `tags2dict` and `dns_name_to_instance` have this shape.
 */
module LastWinsDicts {

  /** No later pair has the same key as pair `i`. */
  predicate IsLast<K(==), V>(ps: seq<(K, V)>, i: int)
    requires 0 <= i < |ps|
  {
    forall j :: i < j < |ps| ==> ps[j].0 != ps[i].0
  }

  /** The dictionary after assigning the pairs in order. */
  function LastWins<K(==), V>(ps: seq<(K, V)>): (m: map<K, V>)
    ensures m.Keys == set i | 0 <= i < |ps| :: ps[i].0
    ensures forall i :: 0 <= i < |ps| && IsLast(ps, i) ==> m[ps[i].0] == ps[i].1
  {
    if ps == [] then map[]
    else
      var front := ps[..|ps| - 1];
      var p := ps[|ps| - 1];
      assert forall i :: 0 <= i < |front| ==> front[i] == ps[i];
      LastWins(front)[p.0 := p.1]
  }

  /** Every key has a last occurrence, so `LastWins` binds every key to a value of the pairs. */
  lemma {:induction false} LastOccurrence<K, V>(ps: seq<(K, V)>, k: K)
    requires k in LastWins(ps)
    ensures exists i :: 0 <= i < |ps| && ps[i].0 == k && IsLast(ps, i) && LastWins(ps)[k] == ps[i].1
  {
    var n := |ps| - 1;
    if ps[n].0 == k {
      assert IsLast(ps, n);
    } else {
      var front := ps[..n];
      assert LastWins(ps) == LastWins(front)[ps[n].0 := ps[n].1];
      LastOccurrence(front, k);
      var i :| 0 <= i < |front| && front[i].0 == k && IsLast(front, i) &&
               LastWins(front)[k] == front[i].1;
      assert ps[i] == front[i];
      forall j | i < j < |ps| ensures ps[j].0 != ps[i].0 {
        if j < n {
          assert front[j] == ps[j];
          assert front[j].0 != front[i].0;
        } else {
          assert j == n;
        }
      }
    }
  }

  /** Assigning one more pair: the dictionary after the loop's next iteration. */
  lemma LastWinsSnoc<K, V>(ps: seq<(K, V)>, k: K, v: V)
    ensures LastWins(ps + [(k, v)]) == LastWins(ps)[k := v]
  {
  }
}
