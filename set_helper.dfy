/** SetHelper (src/lib/helpers/SetHelper.ts): equality and difference of two sets.
    The sets are values here; the JavaScript `Set` objects they model are not
    changed by either operation. */
module SetHelperModel {

  /** areSetsEqual: false on different sizes, otherwise false at the first element of
      A missing from B, and true when there is none. */
  method AreSetsEqual<T>(setA: set<T>, setB: set<T>) returns (equal: bool)
    ensures equal <==> setA == setB
  {
    if |setA| != |setB| {
      return false;
    }
    var rest := setA;
    while rest != {}
      invariant rest <= setA
      invariant setA - rest <= setB
      decreases |rest|
    {
      var a :| a in rest;
      if a !in setB {
        return false;
      }
      rest := rest - {a};
    }
    SubsetOfSameSize(setA, setB);
    return true;
  }

  /** A subset is no larger than its superset. */
  lemma {:induction false} SubsetSize<T>(a: set<T>, b: set<T>)
    requires a <= b
    ensures |a| <= |b|
  {
    if a != {} {
      var y :| y in a;
      SubsetSize(a - {y}, b - {y});
    }
  }

  /** A subset as large as its superset is the superset. */
  lemma SubsetOfSameSize<T>(a: set<T>, b: set<T>)
    requires a <= b && |a| == |b|
    ensures a == b
  {
    if a != b {
      var x :| x in b && x !in a;
      SubsetSize(a, b - {x});
    }
  }

  /** difference: a copy of A with every element of B deleted. */
  method Difference<T>(setA: set<T>, setB: set<T>) returns (differenceSet: set<T>)
    ensures differenceSet == setA - setB
  {
    differenceSet := setA;
    var rest := setB;
    while rest != {}
      invariant rest <= setB
      invariant differenceSet == setA - (setB - rest)
      decreases |rest|
    {
      var elem :| elem in rest;
      differenceSet := differenceSet - {elem};
      rest := rest - {elem};
    }
  }

  /** Sets of different sizes are never equal, two empty sets are, and the difference
      is empty exactly when A is contained in B. */
  lemma SetFacts<T>(setA: set<T>, setB: set<T>)
    ensures |setA| != |setB| ==> setA != setB
    ensures setA - setB == {} <==> setA <= setB
  {
    if setA - setB == {} {
      forall x | x in setA ensures x in setB {
        assert x !in setA - setB;
      }
    }
  }
}
