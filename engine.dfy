/**
 * The rewrite engine of the progression: substitution at an id, and the
 * collapse of a group back into the chord it resolves to.
 */
module Engine {
  import opened Wrappers
  import opened Music
  import opened Tree
  import opened Locate
  import opened Rules

  /** A rewritten subtree together with the next unused id. */
  datatype Step = Step(node: Node, next: Id)

  /** A rewritten list of children together with the next unused id. */
  datatype Steps = Steps(nodes: seq<Node>, next: Id)

  /**
   * The rewrite at the node the id names: an unknown rule tag fails, a node
   * the rule's gate rejects is returned as it is, and an accepted node is
   * replaced by the rule's expansion, which takes two ids from the supply.
   */
  function SubstituteHere(th: Theory, n: Node, sub: string, next: Id): (r: Result<Step, Error>)
    ensures r.Ok? ==> RuleNamed(sub).Some? && Validate(th, RuleNamed(sub).value, n).Ok?
    ensures r.Ok? && Validate(th, RuleNamed(sub).value, n) == Ok(false) ==> r.value == Step(n, next)
    ensures r.Ok? && Validate(th, RuleNamed(sub).value, n) == Ok(true) ==>
      Resolvable(n) && r.value == Step(Expand(th, RuleNamed(sub).value, n, next), next + 2)
    ensures r.Ok? ==> r.value.next >= next && OldOrIssued(Ids(r.value.node), Ids(n), next, r.value.next)
  {
    match RuleNamed(sub)
    case None => Err(UnknownSubstitution)
    case Some(rule) =>
      match Validate(th, rule, n)
      case Err(e) => Err(e)
      case Ok(valid) =>
        if !valid then Ok(Step(n, next))
        else if Resolvable(n) then
          ExpandIds(th, rule, n, next);
          Ok(Step(Expand(th, rule, n, next), next + 2))
        else Err(EmptyGroup)
  }

  /**
   * Substitution at id `x`: nodes whose id differs are copied with their
   * children rewritten left to right; a chord whose id differs is returned
   * as it is; the node whose id is `x` is handed to `SubstituteHere` and not
   * searched further.
   */
  function Substitute(th: Theory, n: Node, x: Id, sub: string, next: Id): (r: Result<Step, Error>)
    ensures r.Ok? ==> r.value.next >= next
    ensures r.Ok? ==> OldOrIssued(Ids(r.value.node), Ids(n), next, r.value.next)
    ensures r.Ok? ==> r.value.node.id == n.id || (n.id == x && r.value.node.id == next)
  {
    if n.id == x then SubstituteHere(th, n, sub, next)
    else match n
      case Chord(_, _, _, _) => Ok(Step(n, next))
      case Group(id, rule, cs) =>
        match SubstituteAll(th, cs, x, sub, next)
        case Err(e) => Err(e)
        case Ok(s) => Ok(Step(Group(id, rule, s.nodes), s.next))
  }

  /** Substitution in each child, in order, threading the id supply. */
  function SubstituteAll(th: Theory, cs: seq<Node>, x: Id, sub: string, next: Id): (r: Result<Steps, Error>)
    ensures r.Ok? ==> |r.value.nodes| == |cs| && r.value.next >= next
    ensures r.Ok? ==> OldOrIssued(IdsOf(r.value.nodes), IdsOf(cs), next, r.value.next)
  {
    if cs == [] then Ok(Steps([], next))
    else match Substitute(th, cs[0], x, sub, next)
      case Err(e) => Err(e)
      case Ok(s) =>
        match SubstituteAll(th, cs[1..], x, sub, s.next)
        case Err(e) => Err(e)
        case Ok(ss) => Ok(Steps([s.node] + ss.nodes, ss.next))
  }

  /**
   * Collapse of one node: a chord stays as it is; a group becomes a chord
   * that keeps the group's id and takes root, name and quality from the chord
   * the group resolves to.
   */
  function CollapseNode(n: Node): (r: Result<Node, Error>)
    ensures n.Chord? ==> r == Ok(n)
    ensures r.Ok? <==> Resolvable(n)
    ensures r.Ok? ==> r.value.Chord? && r.value.id == n.id && SameChord(r.value, RootChord(n))
  {
    match n
    case Chord(_, _, _, _) => Ok(n)
    case Group(id, _, _) =>
      if Resolvable(n) then
        var c := RootChord(n);
        Ok(Chord(id, c.root, c.name, c.quality))
      else Err(EmptyGroup)
  }

  /** Collapse of the node whose id is `x`; everything else stays as it is. */
  function CollapseAt(n: Node, x: Id): (r: Result<Node, Error>)
    ensures r.Ok? ==> r.value.id == n.id && Ids(r.value) <= Ids(n)
    ensures r.Ok? && n.id == x ==> r.value.Chord?
  {
    if n.id == x then CollapseNode(n)
    else match n
      case Chord(_, _, _, _) => Ok(n)
      case Group(id, rule, cs) =>
        match CollapseAll(cs, x)
        case Err(e) => Err(e)
        case Ok(cs') => Ok(Group(id, rule, cs'))
  }

  function CollapseAll(cs: seq<Node>, x: Id): (r: Result<seq<Node>, Error>)
    ensures r.Ok? ==> |r.value| == |cs| && IdsOf(r.value) <= IdsOf(cs)
  {
    if cs == [] then Ok([])
    else match CollapseAt(cs[0], x)
      case Err(e) => Err(e)
      case Ok(c) =>
        match CollapseAll(cs[1..], x)
        case Err(e) => Err(e)
        case Ok(rest) => Ok([c] + rest)
  }

  // ---------------------------------------------------------------------------
  // Substitution

  /** An id that occurs nowhere leaves the tree, and the id supply, as they are. */
  lemma {:induction false} SubstituteAbsent(th: Theory, n: Node, x: Id, sub: string, next: Id)
    requires x !in Ids(n)
    ensures Substitute(th, n, x, sub, next) == Ok(Step(n, next))
  {
    match n
    case Chord(_, _, _, _) =>
    case Group(id, rule, cs) =>
      SubstituteAllAbsent(th, cs, x, sub, next);
  }

  lemma {:induction false} SubstituteAllAbsent(th: Theory, cs: seq<Node>, x: Id, sub: string, next: Id)
    requires x !in IdsOf(cs)
    ensures SubstituteAll(th, cs, x, sub, next) == Ok(Steps(cs, next))
  {
    if cs != [] {
      SubstituteAbsent(th, cs[0], x, sub, next);
      SubstituteAllAbsent(th, cs[1..], x, sub, next);
      assert [cs[0]] + cs[1..] == cs;
    }
  }

  /** Naming a rule the table does not have fails whenever the id is present. */
  lemma {:induction false} SubstituteUnknown(th: Theory, n: Node, x: Id, sub: string, next: Id)
    requires x in Ids(n) && RuleNamed(sub) == None
    ensures Substitute(th, n, x, sub, next) == Err(UnknownSubstitution)
  {
    if n.id != x {
      match n
      case Group(id, rule, cs) =>
        SubstituteAllUnknown(th, cs, x, sub, next);
    }
  }

  lemma {:induction false} SubstituteAllUnknown(th: Theory, cs: seq<Node>, x: Id, sub: string, next: Id)
    requires x in IdsOf(cs) && RuleNamed(sub) == None
    ensures SubstituteAll(th, cs, x, sub, next) == Err(UnknownSubstitution)
  {
    if x in Ids(cs[0]) {
      SubstituteUnknown(th, cs[0], x, sub, next);
    } else {
      SubstituteAbsent(th, cs[0], x, sub, next);
      SubstituteAllUnknown(th, cs[1..], x, sub, next);
    }
  }

  /** The outcome at the found node, placed back into the tree at its id. */
  function Place(n: Node, x: Id, r: Result<Step, Error>): Result<Step, Error>
  {
    match r
    case Ok(s) => Ok(Step(ReplaceById(n, x, s.node), s.next))
    case Err(e) => Err(e)
  }

  /** In a tree without duplicate ids, substitution rewrites the named node and nothing else. */
  lemma {:induction false} SubstituteLocal(th: Theory, n: Node, x: Id, sub: string, next: Id)
    requires Unique(n) && x in Ids(n)
    ensures Substitute(th, n, x, sub, next)
         == Place(n, x, SubstituteHere(th, Find(n, x).value, sub, next))
  {
    if n.id != x {
      match n
      case Group(id, rule, cs) =>
        SubstituteAllLocal(th, cs, x, sub, next);
    }
  }

  lemma {:induction false} SubstituteAllLocal(th: Theory, cs: seq<Node>, x: Id, sub: string, next: Id)
    requires AllUnique(cs) && x in IdsOf(cs)
    ensures match SubstituteHere(th, FindAll(cs, x).value, sub, next)
      case Ok(s) => SubstituteAll(th, cs, x, sub, next) == Ok(Steps(ReplaceAll(cs, x, s.node), s.next))
      case Err(e) => SubstituteAll(th, cs, x, sub, next) == Err(e)
  {
    var here := SubstituteHere(th, FindAll(cs, x).value, sub, next);
    if x in Ids(cs[0]) {
      SubstituteLocal(th, cs[0], x, sub, next);
      if here.Ok? {
        SubstituteAllAbsent(th, cs[1..], x, sub, here.value.next);
        ReplaceAllAbsent(cs[1..], x, here.value.node);
      }
    } else {
      SubstituteAbsent(th, cs[0], x, sub, next);
      ReplaceAbsent(cs[0], x, if here.Ok? then here.value.node else cs[0]);
      SubstituteAllLocal(th, cs[1..], x, sub, next);
    }
  }

  /**
   * Substitution on a progression that keeps its invariant: with `m` the node
   * the id names, an unknown tag fails, a failed gate query fails, a rejected
   * node leaves the whole tree unchanged, and an accepted one is replaced by
   * its expansion while every other node stays where it was.
   */
  lemma SubstituteSpec(th: Theory, n: Node, x: Id, sub: string, next: Id)
    requires Inv(n, next) && x in Ids(n)
    ensures var m := Find(n, x).value;
      Resolvable(m) &&
      Substitute(th, n, x, sub, next) ==
        match RuleNamed(sub)
        case None => Err(UnknownSubstitution)
        case Some(rule) =>
          match Validate(th, rule, m)
          case Err(e) => Err(e)
          case Ok(false) => Ok(Step(n, next))
          case Ok(true) => Ok(Step(ReplaceById(n, x, Expand(th, rule, m, next)), next + 2))
  {
    FindInv(n, x, next);
    WellFormedResolvable(Find(n, x).value);
    SubstituteLocal(th, n, x, sub, next);
    ReplaceSelf(n, x);
  }
}

module EngineProps {
  import opened Wrappers
  import opened Music
  import opened Tree
  import opened Locate
  import opened Rules
  import opened Engine

  /** A successful substitution keeps the progression's invariant and never reuses an id. */
  lemma SubstitutePreservesInv(th: Theory, n: Node, x: Id, sub: string, next: Id)
    requires Inv(n, next)
    requires Substitute(th, n, x, sub, next).Ok?
    ensures var s := Substitute(th, n, x, sub, next).value;
      Inv(s.node, s.next) && s.next >= next
  {
    if x !in Ids(n) {
      SubstituteAbsent(th, n, x, sub, next);
    } else {
      SubstituteSpec(th, n, x, sub, next);
      var m := Find(n, x).value;
      var rule := RuleNamed(sub).value;
      if Validate(th, rule, m) == Ok(true) {
        FindInv(n, x, next);
        ExpandInv(th, rule, m, next);
        var g := Expand(th, rule, m, next);
        ReplaceUnique(n, x, g);
        ReplaceWellFormed(n, x, g);
      }
    }
  }

  /**
   * "V-I" and "ii-V" keep the substituted node as the last child, so a
   * successful substitution with either leaves the chord the whole
   * progression resolves to as it was.
   */
  lemma SubstituteKeepsRootChord(th: Theory, n: Node, x: Id, sub: string, next: Id)
    requires Inv(n, next)
    requires sub == RuleName(VI) || sub == RuleName(IIV)
    requires Substitute(th, n, x, sub, next).Ok?
    ensures SameRootChord(Substitute(th, n, x, sub, next).value.node, n)
  {
    WellFormedResolvable(n);
    if x !in Ids(n) {
      SubstituteAbsent(th, n, x, sub, next);
    } else {
      SubstituteSpec(th, n, x, sub, next);
      var m := Find(n, x).value;
      var rule := RuleNamed(sub).value;
      if Validate(th, rule, m) == Ok(true) {
        FindInv(n, x, next);
        ExpandInv(th, rule, m, next);
        ReplaceKeepsRootChord(n, x, Expand(th, rule, m, next));
      }
    }
  }

  /** On a lone chord, a known rule changes the progression exactly when its gate accepts the chord. */
  lemma ValidityGate(th: Theory, c: Node, rule: Rule, next: Id)
    requires c.Chord?
    ensures var r := Substitute(th, c, c.id, RuleName(rule), next);
      r.Ok? && (r.value.node != c <==> Validate(th, rule, c) == Ok(true))
  {
  }

  // ---------------------------------------------------------------------------
  // Collapse

  /** Collapsing an id that occurs nowhere leaves the tree as it is. */
  lemma {:induction false} CollapseAbsent(n: Node, x: Id)
    requires x !in Ids(n)
    ensures CollapseAt(n, x) == Ok(n)
  {
    match n
    case Chord(_, _, _, _) =>
    case Group(id, rule, cs) =>
      CollapseAllAbsent(cs, x);
  }

  lemma {:induction false} CollapseAllAbsent(cs: seq<Node>, x: Id)
    requires x !in IdsOf(cs)
    ensures CollapseAll(cs, x) == Ok(cs)
  {
    if cs != [] {
      CollapseAbsent(cs[0], x);
      CollapseAllAbsent(cs[1..], x);
      assert [cs[0]] + cs[1..] == cs;
    }
  }

  /** In a tree without duplicate ids, collapse rewrites the named node and nothing else. */
  lemma {:induction false} CollapseLocal(n: Node, x: Id)
    requires Unique(n) && x in Ids(n)
    ensures match CollapseNode(Find(n, x).value)
      case Ok(c) => CollapseAt(n, x) == Ok(ReplaceById(n, x, c))
      case Err(e) => CollapseAt(n, x) == Err(e)
  {
    if n.id != x {
      match n
      case Group(id, rule, cs) =>
        CollapseAllLocal(cs, x);
    }
  }

  lemma {:induction false} CollapseAllLocal(cs: seq<Node>, x: Id)
    requires AllUnique(cs) && x in IdsOf(cs)
    ensures match CollapseNode(FindAll(cs, x).value)
      case Ok(c) => CollapseAll(cs, x) == Ok(ReplaceAll(cs, x, c))
      case Err(e) => CollapseAll(cs, x) == Err(e)
  {
    var here := CollapseNode(FindAll(cs, x).value);
    if x in Ids(cs[0]) {
      CollapseLocal(cs[0], x);
      if here.Ok? {
        CollapseAllAbsent(cs[1..], x);
        ReplaceAllAbsent(cs[1..], x, here.value);
      }
    } else {
      CollapseAbsent(cs[0], x);
      ReplaceAbsent(cs[0], x, if here.Ok? then here.value else cs[0]);
      CollapseAllLocal(cs[1..], x);
    }
  }

  /**
   * Collapse on a progression that keeps its invariant never fails: the node
   * the id names is replaced by its collapse, which is the node itself when
   * it is a chord, and every other node stays where it was.
   */
  lemma CollapseSpec(n: Node, x: Id, next: Id)
    requires Inv(n, next) && x in Ids(n)
    ensures var m := Find(n, x).value;
      CollapseNode(m).Ok?
      && CollapseAt(n, x) == Ok(ReplaceById(n, x, CollapseNode(m).value))
      && (m.Chord? ==> CollapseAt(n, x) == Ok(n))
  {
    FindInv(n, x, next);
    WellFormedResolvable(Find(n, x).value);
    CollapseLocal(n, x);
    ReplaceSelf(n, x);
  }

  /**
   * Collapse removes exactly the ids below the named node: the node's own id
   * stays, on the chord that replaces it, and every other id is kept.
   */
  lemma CollapseIds(n: Node, x: Id)
    requires Unique(n) && x in Ids(n) && CollapseAt(n, x).Ok?
    ensures Ids(CollapseAt(n, x).value) == (Ids(n) - Ids(Find(n, x).value)) + {x}
  {
    CollapseLocal(n, x);
    ReplaceUnique(n, x, CollapseNode(Find(n, x).value).value);
  }

  /** A collapse keeps the progression's invariant. */
  lemma CollapsePreservesInv(n: Node, x: Id, next: Id)
    requires Inv(n, next)
    ensures CollapseAt(n, x).Ok? && Inv(CollapseAt(n, x).value, next)
  {
    if x !in Ids(n) {
      CollapseAbsent(n, x);
    } else {
      CollapseSpec(n, x, next);
      var c := CollapseNode(Find(n, x).value).value;
      ReplaceUnique(n, x, c);
      ReplaceWellFormed(n, x, c);
    }
  }

  /** A collapse never changes the chord the whole progression resolves to. */
  lemma CollapseKeepsRootChord(n: Node, x: Id, next: Id)
    requires Inv(n, next)
    ensures CollapseAt(n, x).Ok? && SameRootChord(CollapseAt(n, x).value, n)
  {
    WellFormedResolvable(n);
    if x !in Ids(n) {
      CollapseAbsent(n, x);
    } else {
      CollapseSpec(n, x, next);
      var m := Find(n, x).value;
      ReplaceKeepsRootChord(n, x, CollapseNode(m).value);
    }
  }

  // ---------------------------------------------------------------------------
  // Substitution followed by collapse

  /**
   * Substituting at `x` and then collapsing the new group puts a single chord,
   * with the group's id, where the node named `x` was. For "V-I" and "ii-V"
   * that chord sounds like the one the node resolved to; for "tritone" it is
   * the inserted tritone chord, since collapse only follows the last child.
   */
  lemma SubstituteThenCollapse(th: Theory, n: Node, x: Id, rule: Rule, next: Id)
    requires Inv(n, next) && x in Ids(n)
    requires Validate(th, rule, Find(n, x).value) == Ok(true)
    ensures var m := Find(n, x).value;
      Resolvable(m) &&
      var t := ReplaceById(n, x, Expand(th, rule, m, next));
      var c := RootChord(m);
      var p := if rule == Tritone then Target(th, Tritone, c.root) else c.root;
      var restored := if rule == Tritone then Chord(next, p, Seventh, Dominant)
                      else Chord(next, c.root, c.name, c.quality);
      Substitute(th, n, x, RuleName(rule), next) == Ok(Step(t, next + 2))
      && CollapseAt(t, next) == Ok(ReplaceById(n, x, restored))
  {
    SubstituteSpec(th, n, x, RuleName(rule), next);
    SubstitutePreservesInv(th, n, x, RuleName(rule), next);
    var m := Find(n, x).value;
    var g := Expand(th, rule, m, next);
    var t := ReplaceById(n, x, g);
    FindReplaced(n, x, g);
    CollapseSpec(t, next, next + 2);
    ReplaceTwice(n, x, g, CollapseNode(g).value);
  }
}
