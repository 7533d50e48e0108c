/**
 * Locating a node by id and replacing it: the reference definitions the
 * rewrite engine is proved against.
 */
module Locate {
  import opened Wrappers
  import opened Tree

  /** The first node, in pre-order, whose id is `x`. */
  function Find(n: Node, x: Id): (r: Option<Node>)
    ensures r.Some? <==> x in Ids(n)
    ensures r.Some? ==> r.value.id == x && Ids(r.value) <= Ids(n)
  {
    if n.id == x then Some(n)
    else match n
      case Chord(_, _, _, _) => None
      case Group(_, _, cs) => FindAll(cs, x)
  }

  /** The first node whose id is `x` in a list of subtrees, left to right. */
  function FindAll(cs: seq<Node>, x: Id): (r: Option<Node>)
    ensures r.Some? <==> x in IdsOf(cs)
    ensures r.Some? ==> r.value.id == x && Ids(r.value) <= IdsOf(cs)
  {
    if cs == [] then None
    else match Find(cs[0], x)
      case Some(m) => Some(m)
      case None => FindAll(cs[1..], x)
  }

  /** The tree with every node whose id is `x` replaced, as a whole subtree, by `rep`. */
  function ReplaceById(n: Node, x: Id, rep: Node): Node
  {
    if n.id == x then rep
    else match n
      case Chord(_, _, _, _) => n
      case Group(id, rule, cs) => Group(id, rule, ReplaceAll(cs, x, rep))
  }

  /** Replacement in each of a list of subtrees; the list keeps its length and order. */
  function ReplaceAll(cs: seq<Node>, x: Id, rep: Node): (r: seq<Node>)
    ensures |r| == |cs|
    ensures forall i :: 0 <= i < |cs| ==> r[i] == ReplaceById(cs[i], x, rep)
  {
    if cs == [] then [] else [ReplaceById(cs[0], x, rep)] + ReplaceAll(cs[1..], x, rep)
  }

  /** Replacing an id that does not occur leaves the tree as it is. */
  lemma {:induction false} ReplaceAbsent(n: Node, x: Id, rep: Node)
    requires x !in Ids(n)
    ensures ReplaceById(n, x, rep) == n
  {
    match n
    case Chord(_, _, _, _) =>
    case Group(id, rule, cs) =>
      ReplaceAllAbsent(cs, x, rep);
  }

  lemma {:induction false} ReplaceAllAbsent(cs: seq<Node>, x: Id, rep: Node)
    requires x !in IdsOf(cs)
    ensures ReplaceAll(cs, x, rep) == cs
  {
    if cs != [] {
      ReplaceAbsent(cs[0], x, rep);
      ReplaceAllAbsent(cs[1..], x, rep);
    }
  }

  /** In a tree without duplicate ids, putting the found node back changes nothing. */
  lemma {:induction false} ReplaceSelf(n: Node, x: Id)
    requires Unique(n) && x in Ids(n)
    ensures ReplaceById(n, x, Find(n, x).value) == n
  {
    if n.id != x {
      match n
      case Group(id, rule, cs) =>
        ReplaceAllSelf(cs, x);
    }
  }

  lemma {:induction false} ReplaceAllSelf(cs: seq<Node>, x: Id)
    requires AllUnique(cs) && x in IdsOf(cs)
    ensures ReplaceAll(cs, x, FindAll(cs, x).value) == cs
  {
    var m := FindAll(cs, x).value;
    if x in Ids(cs[0]) {
      ReplaceSelf(cs[0], x);
      ReplaceAllAbsent(cs[1..], x, m);
    } else {
      ReplaceAbsent(cs[0], x, m);
      ReplaceAllSelf(cs[1..], x);
    }
  }

  /** Replacing by a well-formed subtree keeps the tree well formed. */
  lemma {:induction false} ReplaceWellFormed(n: Node, x: Id, rep: Node)
    requires WellFormed(n) && WellFormed(rep)
    ensures WellFormed(ReplaceById(n, x, rep))
  {
    if n.id != x {
      match n
      case Chord(_, _, _, _) =>
      case Group(id, rule, cs) =>
        var cs' := ReplaceAll(cs, x, rep);
        forall i | 0 <= i < |cs'| ensures WellFormed(cs'[i]) {
          ReplaceWellFormed(cs[i], x, rep);
        }
    }
  }

  /**
   * Replacing the only node with id `x` by `rep` trades the ids of that node's
   * subtree for those of `rep`, and keeps ids unique when `rep` brings none
   * of the remaining ones.
   */
  lemma {:induction false} ReplaceUnique(n: Node, x: Id, rep: Node)
    requires Unique(n) && x in Ids(n) && Unique(rep)
    requires Ids(rep) !! (Ids(n) - Ids(Find(n, x).value))
    ensures Unique(ReplaceById(n, x, rep))
    ensures Ids(ReplaceById(n, x, rep)) == (Ids(n) - Ids(Find(n, x).value)) + Ids(rep)
  {
    if n.id != x {
      match n
      case Group(id, rule, cs) =>
        ReplaceAllUnique(cs, x, rep);
    }
  }

  lemma {:induction false} ReplaceAllUnique(cs: seq<Node>, x: Id, rep: Node)
    requires AllUnique(cs) && x in IdsOf(cs) && Unique(rep)
    requires Ids(rep) !! (IdsOf(cs) - Ids(FindAll(cs, x).value))
    ensures AllUnique(ReplaceAll(cs, x, rep))
    ensures IdsOf(ReplaceAll(cs, x, rep)) == (IdsOf(cs) - Ids(FindAll(cs, x).value)) + Ids(rep)
  {
    var m := FindAll(cs, x).value;
    var r := ReplaceAll(cs, x, rep);
    assert r[1..] == ReplaceAll(cs[1..], x, rep);
    if x in Ids(cs[0]) {
      ReplaceUnique(cs[0], x, rep);
      ReplaceAllAbsent(cs[1..], x, rep);
    } else {
      ReplaceAbsent(cs[0], x, rep);
      ReplaceAllUnique(cs[1..], x, rep);
    }
  }

  /** Replacing `x` by a node with fresh id `y`, then `y` by `c`, is replacing `x` by `c`. */
  lemma {:induction false} ReplaceTwice(n: Node, x: Id, rep: Node, c: Node)
    requires rep.id !in Ids(n)
    ensures ReplaceById(ReplaceById(n, x, rep), rep.id, c) == ReplaceById(n, x, c)
  {
    if n.id != x {
      match n
      case Chord(_, _, _, _) =>
      case Group(id, rule, cs) =>
        var cs1 := ReplaceAll(cs, x, rep);
        var cs2 := ReplaceAll(cs1, rep.id, c);
        forall i | 0 <= i < |cs| ensures cs2[i] == ReplaceById(cs[i], x, c) {
          IdsOfAt(cs, i);
          ReplaceTwice(cs[i], x, rep, c);
        }
    }
  }

  /** After replacing `x` by a node with fresh id `y`, looking `y` up finds that node. */
  lemma {:induction false} FindReplaced(n: Node, x: Id, rep: Node)
    requires x in Ids(n) && rep.id !in Ids(n)
    ensures Find(ReplaceById(n, x, rep), rep.id) == Some(rep)
  {
    if n.id != x {
      match n
      case Group(id, rule, cs) =>
        FindAllReplaced(cs, x, rep);
    }
  }

  lemma {:induction false} FindAllReplaced(cs: seq<Node>, x: Id, rep: Node)
    requires x in IdsOf(cs) && rep.id !in IdsOf(cs)
    ensures FindAll(ReplaceAll(cs, x, rep), rep.id) == Some(rep)
  {
    var r := ReplaceAll(cs, x, rep);
    assert r[1..] == ReplaceAll(cs[1..], x, rep);
    if x in Ids(cs[0]) {
      FindReplaced(cs[0], x, rep);
    } else {
      ReplaceAbsent(cs[0], x, rep);
      FindAllReplaced(cs[1..], x, rep);
    }
  }

  /** Among subtrees with disjoint ids, the one holding `x` is where it is found. */
  lemma {:induction false} FindAllAt(cs: seq<Node>, i: nat, x: Id)
    requires AllUnique(cs) && i < |cs| && x in Ids(cs[i])
    ensures FindAll(cs, x) == Find(cs[i], x)
  {
    if i > 0 {
      IdsOfAt(cs[1..], i - 1);
      assert cs[1..][i - 1] == cs[i];
      FindAllAt(cs[1..], i - 1, x);
    }
  }

  /** A found node is well formed, unique and fresh when the whole tree is. */
  lemma {:induction false} FindInv(n: Node, x: Id, next: Id)
    requires Inv(n, next) && x in Ids(n)
    ensures Inv(Find(n, x).value, next)
  {
    if n.id != x {
      match n
      case Group(id, rule, cs) =>
        FindAllInv(cs, x, next);
    }
  }

  lemma {:induction false} FindAllInv(cs: seq<Node>, x: Id, next: Id)
    requires AllUnique(cs) && (forall i :: 0 <= i < |cs| ==> WellFormed(cs[i]))
    requires forall y :: y in IdsOf(cs) ==> y < next
    requires x in IdsOf(cs)
    ensures Inv(FindAll(cs, x).value, next)
  {
    if x in Ids(cs[0]) {
      FindInv(cs[0], x, next);
    } else {
      FindAllInv(cs[1..], x, next);
    }
  }

  /**
   * Replacing the only node with id `x` by a subtree that resolves to the same
   * chord keeps the chord the whole tree resolves to.
   */
  lemma {:induction false} ReplaceKeepsRootChord(n: Node, x: Id, rep: Node)
    requires WellFormed(n) && Unique(n) && x in Ids(n) && WellFormed(rep)
    requires SameRootChord(rep, Find(n, x).value)
    ensures SameRootChord(ReplaceById(n, x, rep), n)
  {
    ReplaceWellFormed(n, x, rep);
    WellFormedResolvable(n);
    WellFormedResolvable(ReplaceById(n, x, rep));
    if n.id != x {
      match n
      case Group(id, rule, cs) =>
        var last := |cs| - 1;
        WellFormedResolvable(cs[last]);
        if x in Ids(cs[last]) {
          FindAllAt(cs, last, x);
          AllUniqueAt(cs, last);
          ReplaceKeepsRootChord(cs[last], x, rep);
        } else {
          ReplaceAbsent(cs[last], x, rep);
        }
    }
  }

  /** The last-child walk ends at a node of the subtree: looking its id up finds that very chord. */
  lemma {:induction false} RootChordFound(n: Node)
    requires Resolvable(n) && Unique(n)
    ensures Find(n, RootChord(n).id) == Some(RootChord(n))
  {
    match n
    case Chord(_, _, _, _) =>
    case Group(id, _, cs) =>
      var last := |cs| - 1;
      AllUniqueAt(cs, last);
      RootChordFound(cs[last]);
      RootChordWithin(cs[last]);
      IdsOfAt(cs, last);
      FindAllAt(cs, last, RootChord(n).id);
  }
}
