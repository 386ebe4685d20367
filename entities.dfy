/** Entities of the chain mechanic: opaque entity identifiers, the enemy
    attributes the balance rule reads, and small facts about sequences of
    identifiers used throughout the model. */
module Entities {

  /** An ECS entity handle, kept opaque: the model only compares ids. */
  type Id = nat

  datatype Option<+T> = None | Some(value: T)

  /** The three enemy colours (main.rs `EnemyColor`). */
  datatype EnemyColor = Red | Green | Blue

  /** The two polarities (main.rs `EnemyPolarity`). */
  datatype EnemyPolarity = Positive | Negative

  /** The immutable `Enemy` component: a colour and a polarity. */
  datatype Enemy = Enemy(color: EnemyColor, polarity: EnemyPolarity)

  /** No identifier occurs twice. */
  predicate Distinct(s: seq<Id>) {
    forall i, j :: 0 <= i < j < |s| ==> s[i] != s[j]
  }

  /** The set of identifiers occurring in `s`. */
  function Elems(s: seq<Id>): (r: set<Id>)
    ensures forall x :: x in r <==> x in s
  {
    set x | x in s
  }

  function Last(s: seq<Id>): Id
    requires |s| > 0
  {
    s[|s| - 1]
  }

  /** A sequence without repetitions has as many elements as its set. */
  lemma {:induction false} DistinctCard(s: seq<Id>)
    requires Distinct(s)
    ensures |Elems(s)| == |s|
  {
    if |s| > 0 {
      var t := s[..|s| - 1];
      assert Distinct(t);
      DistinctCard(t);
      assert Elems(s) == Elems(t) + {Last(s)};
      assert Last(s) !in Elems(t);
    }
  }

  /** A repetition-free sequence drawn from the elements of another
      repetition-free sequence is no longer than it. */
  lemma DistinctSubsetLength(a: seq<Id>, b: seq<Id>)
    requires Distinct(a) && Distinct(b)
    requires Elems(a) <= Elems(b)
    ensures |a| <= |b|
  {
    DistinctCard(a);
    DistinctCard(b);
    SubsetCard(Elems(a), Elems(b));
  }

  lemma {:induction false} SubsetCard(x: set<Id>, y: set<Id>)
    requires x <= y
    ensures |x| <= |y|
    decreases |y|
  {
    if y != {} {
      var e :| e in y;
      SubsetCard(x - {e}, y - {e});
    }
  }
}
