/**
 * The progression tree: chord leaves and substitution groups.
 *
 * A chord node carries an id, a root pitch, a chord name and the quality it
 * was built with. A substitution group carries an id, the rule that built it
 * ("V-I", "ii-V" or "tritone") and its ordered children; by convention the
 * chord the group stands for is reached through the last child.
 */
module Tree {
  import opened Wrappers
  import opened Music

  /** Node ids. The original draws random strings; here a counter supplies them. */
  type Id = nat

  /** The three substitution rules of the rule table. */
  datatype Rule = VI | IIV | Tritone

  datatype Node =
    | Chord(id: Id, root: Pitch, name: ChordName, quality: Quality)
    | Group(id: Id, rule: Rule, children: seq<Node>)

  /** The `type` tag the original stores on a group built by `rule`. */
  function RuleName(rule: Rule): string
  {
    match rule
    case VI => "V-I"
    case IIV => "ii-V"
    case Tritone => "tritone"
  }

  /** Looks a rule up by its tag, as indexing the rule table does. */
  function RuleNamed(s: string): (r: Option<Rule>)
    ensures forall rule :: r == Some(rule) <==> s == RuleName(rule)
  {
    if s == "V-I" then Some(VI)
    else if s == "ii-V" then Some(IIV)
    else if s == "tritone" then Some(Tritone)
    else None
  }

  /** The `type` field of a node. */
  function TypeName(n: Node): string
  {
    match n
    case Chord(_, _, _, _) => "chord"
    case Group(_, rule, _) => RuleName(rule)
  }

  /** Every id that occurs in the subtree rooted at `n`. */
  function Ids(n: Node): set<Id>
  {
    match n
    case Chord(id, _, _, _) => {id}
    case Group(id, _, cs) => {id} + IdsOf(cs)
  }

  /** Every id that occurs in a list of subtrees. */
  function IdsOf(cs: seq<Node>): set<Id>
  {
    if cs == [] then {} else Ids(cs[0]) + IdsOf(cs[1..])
  }

  /** Every group has at least one child (no rule builds an empty group). */
  predicate WellFormed(n: Node)
  {
    match n
    case Chord(_, _, _, _) => true
    case Group(_, _, cs) => |cs| > 0 && forall i :: 0 <= i < |cs| ==> WellFormed(cs[i])
  }

  /** No id occurs twice in the subtree rooted at `n`. */
  predicate Unique(n: Node)
  {
    match n
    case Chord(_, _, _, _) => true
    case Group(id, _, cs) => id !in IdsOf(cs) && AllUnique(cs)
  }

  /** Every subtree is unique and no id is shared between two of them. */
  predicate AllUnique(cs: seq<Node>)
  {
    cs == [] || (Unique(cs[0]) && Ids(cs[0]) !! IdsOf(cs[1..]) && AllUnique(cs[1..]))
  }

  /** Every id in the tree was issued before `next`, so `next` onwards are fresh. */
  predicate IdsBelow(n: Node, next: Id)
  {
    forall x :: x in Ids(n) ==> x < next
  }

  /**
   * Every id in `after` was already in `before` or was handed out while the
   * supply's counter moved from `from` to `to`.
   */
  predicate OldOrIssued(after: set<Id>, before: set<Id>, from: Id, to: Id)
  {
    forall i :: i in after ==> i in before || from <= i < to
  }

  /** The invariant the progression keeps between user actions. */
  predicate Inv(n: Node, next: Id)
  {
    WellFormed(n) && Unique(n) && IdsBelow(n, next)
  }

  /** Following the last child never reaches an empty group. */
  predicate Resolvable(n: Node)
  {
    match n
    case Chord(_, _, _, _) => true
    case Group(_, _, cs) => |cs| > 0 && Resolvable(cs[|cs| - 1])
  }

  /**
   * The chord a subtree currently resolves to: the node itself when it is a
   * chord, otherwise the root chord of its last child.
   */
  function RootChord(n: Node): (r: Node)
    requires Resolvable(n)
    ensures r.Chord?
    ensures n.Chord? ==> r == n
  {
    match n
    case Chord(_, _, _, _) => n
    case Group(_, _, cs) => RootChord(cs[|cs| - 1])
  }

  /** Two chord nodes sound the same: equal root, name and quality (ids may differ). */
  predicate SameChord(a: Node, b: Node)
  {
    a.Chord? && b.Chord? && a.root == b.root && a.name == b.name && a.quality == b.quality
  }

  /** Both subtrees resolve, and to chords that sound the same. */
  predicate SameRootChord(a: Node, b: Node)
  {
    Resolvable(a) && Resolvable(b) && SameChord(RootChord(a), RootChord(b))
  }

  lemma {:induction false} WellFormedResolvable(n: Node)
    requires WellFormed(n)
    ensures Resolvable(n)
  {
    match n
    case Chord(_, _, _, _) =>
    case Group(_, _, cs) =>
      WellFormedResolvable(cs[|cs| - 1]);
  }

  /** The root chord lies inside the subtree it is resolved from. */
  lemma {:induction false} RootChordWithin(n: Node)
    requires Resolvable(n)
    ensures RootChord(n).id in Ids(n)
  {
    match n
    case Chord(_, _, _, _) =>
    case Group(_, _, cs) =>
      RootChordWithin(cs[|cs| - 1]);
      IdsOfAt(cs, |cs| - 1);
  }

  lemma {:induction false} IdsOfAt(cs: seq<Node>, i: nat)
    requires i < |cs|
    ensures Ids(cs[i]) <= IdsOf(cs)
  {
    if i > 0 {
      IdsOfAt(cs[1..], i - 1);
      assert cs[1..][i - 1] == cs[i];
    }
  }

  lemma {:induction false} AllUniqueAt(cs: seq<Node>, i: nat)
    requires AllUnique(cs) && i < |cs|
    ensures Unique(cs[i])
  {
    if i > 0 {
      AllUniqueAt(cs[1..], i - 1);
      assert cs[1..][i - 1] == cs[i];
    }
  }
}
