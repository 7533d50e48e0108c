/**
 * The progression component: it owns the current tree and the id supply,
 * and each user action replaces the tree with the engine's result.
 */
module App {
  import opened Wrappers
  import opened Music
  import opened Tree
  import opened Locate
  import opened Rules
  import opened Engine
  import opened EngineProps

  class Progression {
    /** The music-theory provider the rules consult. */
    const theory: Theory
    /** The current progression tree (the component's state). */
    var state: Node
    /** The next id the supply will hand out. */
    var nextId: Id

    ghost predicate Valid()
      reads this
    {
      Inv(state, nextId)
    }

    /** The initial progression is a single C major seventh chord. */
    constructor (theory: Theory)
      ensures Valid() && this.theory == theory
      ensures state == Chord(0, "C", MajorSeventh, Major) && nextId == 1
    {
      this.theory := theory;
      state := BuildChord("C", MajorSeventh, Major, 0);
      nextId := 1;
    }

    /**
     * The handler for a substitution request on `node`: the tree becomes the
     * result of substituting at the node's id. When the original would throw,
     * the tree is left as it was and the reason is returned.
     */
    method SubstituteChord(node: Node, substitution: string) returns (failure: Option<Error>)
      requires Valid()
      modifies this
      ensures Valid()
      ensures match Substitute(theory, old(state), node.id, substitution, old(nextId))
        case Ok(s) => failure == None && state == s.node && nextId == s.next
        case Err(e) => failure == Some(e) && state == old(state) && nextId == old(nextId)
      ensures nextId >= old(nextId)
      ensures substitution == RuleName(VI) || substitution == RuleName(IIV) ==>
        SameRootChord(state, old(state))
    {
      WellFormedResolvable(state);
      var r := Substitute(theory, state, node.id, substitution, nextId);
      match r
      case Ok(s) =>
        SubstitutePreservesInv(theory, state, node.id, substitution, nextId);
        if substitution == RuleName(VI) || substitution == RuleName(IIV) {
          SubstituteKeepsRootChord(theory, state, node.id, substitution, nextId);
        }
        state, nextId := s.node, s.next;
        failure := None;
      case Err(e) =>
        failure := Some(e);
    }

    /**
     * The handler for a collapse request on `node`, a node of the current
     * tree: a chord is left alone; a group is turned into the chord its last
     * child resolves to, keeping its id.
     */
    method Collapse(node: Node)
      requires Valid() && Find(state, node.id) == Some(node)
      modifies this
      ensures Valid() && nextId == old(nextId)
      ensures node.Chord? ==> state == old(state)
      ensures CollapseNode(node).Ok? && state == ReplaceById(old(state), node.id, CollapseNode(node).value)
      ensures SameRootChord(state, old(state))
    {
      CollapseSpec(state, node.id, nextId);
      CollapsePreservesInv(state, node.id, nextId);
      CollapseKeepsRootChord(state, node.id, nextId);
      match node
      case Chord(_, _, _, _) =>
        ReplaceSelf(state, node.id);
      case Group(_, _, _) =>
        state := CollapseAt(state, node.id).value;
    }
  }
}
