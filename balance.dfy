/** The balance rule of main.rs `draw_chain_balance`: the chained enemies
    are tallied per colour, +1 for a Positive and -1 for a Negative one;
    the reaction may start only when every tally is zero, and the panel
    shows, per colour, the markers that would bring its tally back to zero. */
module Balance {
  import opened Entities

  /** The value an enemy's polarity adds to its colour's tally (main.rs:581-584). */
  function Charge(p: EnemyPolarity): int
  {
    match p
    case Positive => 1
    case Negative => -1
  }

  /** What one enemy adds to the tally of colour `c`. */
  function Share(e: Enemy, c: EnemyColor): int
  {
    if e.color == c then Charge(e.polarity) else 0
  }

  /** The tally of colour `c` over `s`, accumulated front to back. */
  function Net(s: seq<Enemy>, c: EnemyColor): (r: int)
    ensures -(|s| as int) <= r <= |s|
  {
    if s == [] then 0
    else
      Net(s[..|s| - 1], c) + Share(s[|s| - 1], c)
  }

  /** How many enemies of `s` have colour `c` and polarity `p`. */
  function Count(s: seq<Enemy>, c: EnemyColor, p: EnemyPolarity): (r: nat)
    ensures r <= |s|
  {
    if s == [] then 0
    else Count(s[..|s| - 1], c, p) + (if s[|s| - 1] == Enemy(c, p) then 1 else 0)
  }

  /** The tally is the number of Positive minus the number of Negative
      enemies of that colour. */
  lemma {:induction false} NetIsDifference(s: seq<Enemy>, c: EnemyColor)
    ensures Net(s, c) == Count(s, c, Positive) - Count(s, c, Negative)
  {
    if s != [] {
      NetIsDifference(s[..|s| - 1], c);
    }
  }

  /** All three tallies are zero. */
  predicate Balanced(s: seq<Enemy>)
  {
    Net(s, Red) == 0 && Net(s, Green) == 0 && Net(s, Blue) == 0
  }

  function Abs(x: int): nat
  {
    if x < 0 then -x else x
  }

  /** The polarity of the markers shown for a tally: Positive when the
      tally is negative, otherwise Negative (main.rs:636-640). */
  function NeededPolarity(net: int): EnemyPolarity
  {
    if net < 0 then Positive else Negative
  }

  /** The markers shown for one colour: `abs(net)` enemies of that colour
      with the opposite polarity. */
  function Needed(c: EnemyColor, net: int): (r: seq<Enemy>)
    ensures |r| == Abs(net)
    ensures forall i :: 0 <= i < |r| ==> r[i] == Enemy(c, NeededPolarity(net))
  {
    seq(Abs(net), _ => Enemy(c, NeededPolarity(net)))
  }

  /** The whole panel, in the order it is drawn: reds, blues, greens. */
  function NeededMarkers(reds: int, greens: int, blues: int): (r: seq<Enemy>)
    ensures forall i :: 0 <= i < |r| ==>
      r[i].polarity == NeededPolarity(match r[i].color case Red => reds case Green => greens case Blue => blues)
  {
    Needed(Red, reds) + Needed(Blue, blues) + Needed(Green, greens)
  }

  /** What one frame of the system computes. */
  datatype Panel = Panel(
    reds: int, greens: int, blues: int,
    needed: seq<Enemy>,
    /** whether `StartChainReaction` is written */
    start: bool,
    /** whether the error sound is played */
    errorSound: bool)

  /** The `Enemy` components of the entities of `o`, in that order. */
  function EnemiesOf(o: seq<Id>, enemy: map<Id, Enemy>): (r: seq<Enemy>)
    requires Elems(o) <= enemy.Keys
    ensures |r| == |o| && forall i :: 0 <= i < |o| ==> r[i] == enemy[o[i]]
  {
    seq(|o|, i requires 0 <= i < |o| => enemy[o[i]])
  }

  /** The counting loop of `draw_chain_balance` (main.rs:576-590) over the
      query's iteration order `order`; `enemy` maps each entity to its
      `Enemy` component. */
  method Tally(order: seq<Id>, enemy: map<Id, Enemy>) returns (reds: int, greens: int, blues: int)
    requires Elems(order) <= enemy.Keys
    ensures reds == Net(EnemiesOf(order, enemy), Red)
    ensures greens == Net(EnemiesOf(order, enemy), Green)
    ensures blues == Net(EnemiesOf(order, enemy), Blue)
  {
    ghost var chained := EnemiesOf(order, enemy);
    greens, reds, blues := 0, 0, 0;
    var i := 0;
    while i < |order|
      invariant 0 <= i <= |order|
      invariant reds == Net(chained[..i], Red)
      invariant greens == Net(chained[..i], Green)
      invariant blues == Net(chained[..i], Blue)
    {
      var e := enemy[order[i]];
      assert chained[..i + 1][..i] == chained[..i] && chained[i] == e;
      var val := Charge(e.polarity);
      match e.color {
        case Red => reds := reds + val;
        case Green => greens := greens + val;
        case Blue => blues := blues + val;
      }
      i := i + 1;
    }
    assert chained[..i] == chained;
  }

  /** One frame of `draw_chain_balance` (main.rs:569-696): the tallies, the
      markers of the panel, and what a press of Space does. */
  method DrawChainBalance(order: seq<Id>, enemy: map<Id, Enemy>, spacePressed: bool) returns (panel: Panel)
    requires Elems(order) <= enemy.Keys
    ensures var chained := EnemiesOf(order, enemy);
      && panel.reds == Net(chained, Red)
      && panel.greens == Net(chained, Green)
      && panel.blues == Net(chained, Blue)
      && panel.needed == NeededMarkers(Net(chained, Red), Net(chained, Green), Net(chained, Blue))
      && (panel.start <==> spacePressed && Balanced(chained))
      && (panel.errorSound <==> spacePressed && !Balanced(chained))
  {
    var reds, greens, blues := Tally(order, enemy);
    var needed := [];
    needed := AppendMarkers(needed, Red, reds);
    needed := AppendMarkers(needed, Blue, blues);
    needed := AppendMarkers(needed, Green, greens);
    var start, errorSound := false, false;
    if spacePressed {
      if reds == 0 && greens == 0 && blues == 0 {
        start := true;
      } else {
        errorSound := true;
      }
    }
    panel := Panel(reds, greens, blues, needed, start, errorSound);
  }

  /** One of the three marker loops (main.rs:632-695): `abs(net)` markers
      of colour `c` are added to the panel. */
  method AppendMarkers(acc: seq<Enemy>, c: EnemyColor, net: int) returns (r: seq<Enemy>)
    ensures r == acc + Needed(c, net)
  {
    r := acc;
    var k := 0;
    while k < Abs(net)
      invariant 0 <= k <= Abs(net)
      invariant r == acc + Needed(c, net)[..k]
    {
      r := r + [Enemy(c, NeededPolarity(net))];
      k := k + 1;
    }
  }

  /** The tally of a concatenation is the sum of the tallies. */
  lemma {:induction false} NetAppend(a: seq<Enemy>, b: seq<Enemy>, c: EnemyColor)
    ensures Net(a + b, c) == Net(a, c) + Net(b, c)
  {
    if b != [] {
      var ab := a + b;
      assert ab[..|ab| - 1] == a + b[..|b| - 1];
      assert ab[|ab| - 1] == b[|b| - 1];
      NetAppend(a, b[..|b| - 1], c);
    } else {
      assert a + b == a;
    }
  }

  /** The markers of one colour carry exactly the opposite of its tally,
      and nothing for the other colours. */
  lemma {:induction false} NetOfNeeded(c: EnemyColor, net: int, d: EnemyColor, k: nat)
    requires k <= Abs(net)
    ensures Net(Needed(c, net)[..k], d) == if c == d then (if net < 0 then k as int else -(k as int)) else 0
  {
    if k > 0 {
      assert Needed(c, net)[..k][..k - 1] == Needed(c, net)[..k - 1];
      NetOfNeeded(c, net, d, k - 1);
    }
  }

  /** The tally of the whole panel for colour `d` is minus the tally of `d`. */
  lemma NetOfMarkers(reds: int, greens: int, blues: int, d: EnemyColor)
    ensures Net(NeededMarkers(reds, greens, blues), d) ==
      match d
      case Red => -reds
      case Green => -greens
      case Blue => -blues
  {
    forall c: EnemyColor, net: int
      ensures Net(Needed(c, net), d) == if c == d then -net else 0
    {
      NetOfNeeded(c, net, d, Abs(net));
      assert Needed(c, net)[..Abs(net)] == Needed(c, net);
    }
    NetAppend(Needed(Red, reds) + Needed(Blue, blues), Needed(Green, greens), d);
    NetAppend(Needed(Red, reds), Needed(Blue, blues), d);
  }

  /** Chaining the enemies the panel shows balances the chain. */
  lemma NeededRestoresBalance(chained: seq<Enemy>)
    ensures Balanced(chained + NeededMarkers(Net(chained, Red), Net(chained, Green), Net(chained, Blue)))
  {
    var needed := NeededMarkers(Net(chained, Red), Net(chained, Green), Net(chained, Blue));
    forall d: EnemyColor
      ensures Net(chained + needed, d) == 0
    {
      NetAppend(chained, needed, d);
      NetOfMarkers(Net(chained, Red), Net(chained, Green), Net(chained, Blue), d);
    }
  }

  /** The panel is empty exactly when the chain is balanced, that is,
      exactly when Space would start the reaction. */
  lemma NeededEmptyIffBalanced(chained: seq<Enemy>)
    ensures NeededMarkers(Net(chained, Red), Net(chained, Green), Net(chained, Blue)) == [] <==> Balanced(chained)
  {
    var needed := NeededMarkers(Net(chained, Red), Net(chained, Green), Net(chained, Blue));
    assert |needed| == Abs(Net(chained, Red)) + Abs(Net(chained, Blue)) + Abs(Net(chained, Green));
  }

  /** The tallies of a query do not depend on the order in which it
      visits the chained entities. */
  lemma {:induction false} TallyIgnoresOrder(o1: seq<Id>, o2: seq<Id>, enemy: map<Id, Enemy>, c: EnemyColor)
    requires Elems(o1) <= enemy.Keys && multiset(o1) == multiset(o2)
    ensures Elems(o2) <= enemy.Keys
    ensures Net(EnemiesOf(o1, enemy), c) == Net(EnemiesOf(o2, enemy), c)
    decreases |o1|
  {
    assert forall x :: x in o2 ==> x in multiset(o2);
    if o1 == [] {
      assert o2 == [] by { assert |multiset(o2)| == 0; }
    } else {
      var x := Last(o1);
      assert x in multiset(o2);
      var k :| 0 <= k < |o2| && o2[k] == x;
      var rest := o2[..k] + o2[k + 1..];
      MultisetRemove(o1, o2, k);
      TallyIgnoresOrder(o1[..|o1| - 1], rest, enemy, c);
      NetDropLast(o1, enemy, c);
      NetDropAt(o2, k, enemy, c);
    }
  }

  lemma MultisetRemove(o1: seq<Id>, o2: seq<Id>, k: int)
    requires multiset(o1) == multiset(o2) && o1 != []
    requires 0 <= k < |o2| && o2[k] == Last(o1)
    ensures multiset(o1[..|o1| - 1]) == multiset(o2[..k] + o2[k + 1..])
  {
    var x := Last(o1);
    assert o1 == o1[..|o1| - 1] + [x];
    assert o2 == o2[..k] + [x] + o2[k + 1..];
    assert multiset(o1[..|o1| - 1]) == multiset(o1) - multiset{x};
    assert multiset(o2[..k] + o2[k + 1..]) == multiset(o2) - multiset{x};
  }

  lemma NetDropLast(o: seq<Id>, enemy: map<Id, Enemy>, c: EnemyColor)
    requires Elems(o) <= enemy.Keys && o != []
    ensures Elems(o[..|o| - 1]) <= enemy.Keys
    ensures Net(EnemiesOf(o, enemy), c) == Net(EnemiesOf(o[..|o| - 1], enemy), c) + Share(enemy[Last(o)], c)
  {
    assert EnemiesOf(o, enemy)[..|o| - 1] == EnemiesOf(o[..|o| - 1], enemy);
  }

  lemma NetDropAt(o: seq<Id>, k: int, enemy: map<Id, Enemy>, c: EnemyColor)
    requires Elems(o) <= enemy.Keys && 0 <= k < |o|
    ensures Elems(o[..k] + o[k + 1..]) <= enemy.Keys
    ensures Net(EnemiesOf(o, enemy), c) == Net(EnemiesOf(o[..k] + o[k + 1..], enemy), c) + Share(enemy[o[k]], c)
  {
    var a, b := o[..k], o[k + 1..];
    assert o == a + [o[k]] + b;
    EnemiesOfAppend(a + [o[k]], b, enemy);
    EnemiesOfAppend(a, [o[k]], enemy);
    EnemiesOfAppend(a, b, enemy);
    var ea, eb, ex := EnemiesOf(a, enemy), EnemiesOf(b, enemy), EnemiesOf([o[k]], enemy);
    NetAppend(ea + ex, eb, c);
    NetAppend(ea, ex, c);
    NetAppend(ea, eb, c);
    assert ex == [enemy[o[k]]] && ex[..0] == [];
  }

  lemma EnemiesOfAppend(a: seq<Id>, b: seq<Id>, enemy: map<Id, Enemy>)
    requires Elems(a) <= enemy.Keys && Elems(b) <= enemy.Keys
    ensures Elems(a + b) <= enemy.Keys
    ensures EnemiesOf(a + b, enemy) == EnemiesOf(a, enemy) + EnemiesOf(b, enemy)
  {
    assert forall x :: x in a + b ==> x in a || x in b;
  }

  /** Two positive and two negative reds balance; dropping a negative one
      leaves a tally of +1, and the panel asks for one negative red. */
  lemma RedExample()
    ensures Balanced([Enemy(Red, Positive), Enemy(Red, Negative), Enemy(Red, Positive), Enemy(Red, Negative)])
    ensures Net([Enemy(Red, Positive), Enemy(Red, Negative), Enemy(Red, Positive)], Red) == 1
    ensures NeededMarkers(1, 0, 0) == [Enemy(Red, Negative)]
  {
    var p, n := Enemy(Red, Positive), Enemy(Red, Negative);
    var s1, s2, s3, s4 := [p], [p, n], [p, n, p], [p, n, p, n];
    assert s1[..0] == [] && s2[..1] == s1 && s3[..2] == s2 && s4[..3] == s3;
    forall c: EnemyColor
      ensures Net(s4, c) == 0 && Net(s3, c) == if c == Red then 1 else 0
    {
      assert Net(s1, c) == if c == Red then 1 else 0;
      assert Net(s2, c) == 0;
    }
  }
}
