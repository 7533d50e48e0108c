/**
 * The substitution rule table: for each rule a validity gate and an
 * expansion that wraps (or, for the tritone rule, replaces) a node.
 */
module Rules {
  import opened Wrappers
  import opened Music
  import opened Tree

  /**
   * Why a rewrite could not complete. Each one is a point where the original
   * throws: an unknown rule tag, a pitch query on a node without a root, or a
   * last-child walk that reaches an empty group.
   */
  datatype Error = UnknownSubstitution | NotAChord | EmptyGroup

  /** A fresh chord node: the id comes from the id supply. */
  function BuildChord(root: Pitch, name: ChordName, quality: Quality, id: Id): Node
  {
    Chord(id, root, name, quality)
  }

  /** A chord built with the next id of the supply is new to every tree the supply has served. */
  lemma BuildChordFresh(t: Node, root: Pitch, name: ChordName, quality: Quality, next: Id)
    requires IdsBelow(t, next)
    ensures var c := BuildChord(root, name, quality, next);
      TypeName(c) == "chord" && c.root == root && c.name == name && c.quality == quality
      && c.id !in Ids(t) && IdsBelow(c, next + 1)
  {
  }

  /**
   * The rule's gate. "V-I" accepts every node; "ii-V" and "tritone" accept a
   * chord exactly when the library rates its root and name as dominant. On a
   * group there is no root to ask about, which the original does not guard.
   */
  function Validate(th: Theory, rule: Rule, n: Node): (r: Result<bool, Error>)
    ensures rule == VI ==> r == Ok(true)
    ensures rule != VI ==> (r.Ok? <==> n.Chord?)
    ensures rule != VI ==> (r == Ok(true) <==> n.Chord? && th.quality(n.root, n.name) == Dominant)
  {
    match rule
    case VI => Ok(true)
    case _ =>
      if n.Chord? then Ok(th.quality(n.root, n.name) == Dominant) else Err(NotAChord)
  }

  /** The pitch of the chord a rule inserts in front of (or instead of) a chord on `root`. */
  function Target(th: Theory, rule: Rule, root: Pitch): Pitch
  {
    match rule
    case VI => th.transpose(root, PerfectFifth)
    case IIV => th.transpose(th.transpose(root, PerfectFourth), MajorSecond)
    case Tritone => th.transpose(root, DiminishedFifth)
  }

  /**
   * The rule's expansion of `n`. The group takes the id `next` and the chord
   * it inserts the id `next + 1`, in the order the original draws them.
   * "V-I" and "ii-V" keep `n` as the last child, so the group still resolves
   * to the chord `n` resolves to; "tritone" drops `n`.
   */
  function Expand(th: Theory, rule: Rule, n: Node, next: Id): (g: Node)
    requires Resolvable(n)
    ensures g.Group? && g.id == next && g.rule == rule && TypeName(g) == RuleName(rule)
    ensures |g.children| == (if rule == Tritone then 1 else 2) && Resolvable(g)
    ensures g.children[0].Chord? && g.children[0].id == next + 1
    ensures g.children[0].root == Target(th, rule, RootChord(n).root)
    ensures rule == VI ==> g.children[0].name == Seventh && g.children[0].quality == Dominant
    ensures rule == IIV ==> g.children[0].name == MinorSeventh && g.children[0].quality == Minor
    ensures rule == Tritone ==> g.children[0].name == Seventh && g.children[0].quality == Dominant
    ensures rule != Tritone ==> g.children[1] == n && SameRootChord(g, n)
    ensures rule == Tritone ==> SameChord(RootChord(g), g.children[0])
  {
    var root := RootChord(n).root;
    match rule
    case VI =>
      Group(next, VI, [BuildChord(Target(th, VI, root), Seventh, Dominant, next + 1), n])
    case IIV =>
      Group(next, IIV, [BuildChord(Target(th, IIV, root), MinorSeventh, Minor, next + 1), n])
    case Tritone =>
      Group(next, Tritone, [BuildChord(Target(th, Tritone, root), Seventh, Dominant, next + 1)])
  }

  /** An expansion's ids are the two it draws plus whatever it keeps of `n`. */
  lemma ExpandIds(th: Theory, rule: Rule, n: Node, next: Id)
    requires Resolvable(n)
    ensures Ids(Expand(th, rule, n, next)) == {next, next + 1} + (if rule == Tritone then {} else Ids(n))
  {
    var g := Expand(th, rule, n, next);
    assert Ids(g.children[0]) == {next + 1};
    if rule == Tritone {
      assert g.children[1..] == [];
      assert IdsOf(g.children[1..]) == {};
    } else {
      assert g.children[1..] == [n];
      assert g.children[1..][1..] == [];
      assert IdsOf(g.children[1..]) == Ids(n);
    }
  }

  /**
   * An expansion built from the id supply keeps the tree invariant: it is well
   * formed, its ids are unique, and it uses exactly the two new ids besides
   * whatever it keeps of `n`.
   */
  lemma ExpandInv(th: Theory, rule: Rule, n: Node, next: Id)
    requires Inv(n, next) && Resolvable(n)
    ensures var g := Expand(th, rule, n, next);
      Inv(g, next + 2)
      && Ids(g) == {next, next + 1} + (if rule == Tritone then {} else Ids(n))
  {
    ExpandIds(th, rule, n, next);
    var g := Expand(th, rule, n, next);
    if rule != Tritone {
      assert g.children[1..] == [n];
      assert g.children[1..][1..] == [];
      assert AllUnique(g.children[1..]);
    }
  }
}
