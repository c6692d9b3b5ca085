/** Shared result types. */
module Common {
  datatype Option<+T> = None | Some(value: T)

  datatype Result<+T> = Ok(value: T) | Err(reason: string)

  /** The numbers below `n`. */
  ghost function Range(n: nat): (r: set<nat>)
    ensures |r| == n
    ensures forall j: nat :: j in r <==> j < n
  {
    if n == 0 then {} else Range(n - 1) + {n - 1}
  }

  lemma SubsetSize<T>(a: set<T>, b: set<T>)
    requires a <= b
    ensures |a| <= |b|
    ensures |a| == |b| ==> a == b
  {
    assert b == a + (b - a);
  }

  /** Where the map sends the keys of `ps`. */
  ghost function Images(ps: set<int>, t: map<int, int>): set<int>
    requires ps <= t.Keys
  {
    set p | p in ps :: t[p]
  }

  lemma Member<T>(ps: set<T>) returns (p: T)
    requires ps != {}
    ensures p in ps
  {
    p :| p in ps;
  }

  lemma {:induction false} ImageSize(ps: set<int>, t: map<int, int>)
    requires ps <= t.Keys
    requires forall p, q :: p in ps && q in ps && t[p] == t[q] ==> p == q
    ensures |Images(ps, t)| == |ps|
    decreases |ps|
  {
    if ps != {} {
      var p := Member(ps);
      var rest := ps - {p};
      ImageSize(rest, t);
      assert Images(ps, t) == Images(rest, t) + {t[p]};
      assert t[p] !in Images(rest, t);
    }
  }
}
