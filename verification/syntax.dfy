/**
 The syntax tree as pgCompletion sees it, and the `inside` ancestor walk.

 The tree is given as the ancestor chain of the node at the cursor: `chain[0]` is
 the innermost node at the cursor and `chain[i + 1]` is the parent of `chain[i]`;
 the last node of the chain has no parent. Nothing of a node is modelled beyond
 what the completion source reads from it.
 */
module Syntax {
  import opened Wrappers

  /** The name the parser gives its error-recovery node. */
  const ErrorNodeName: string := "⚠"

  /**
   A node of the chain: its name, the name of its last child (None when it has no
   children), the end offset of its first `ArrowOperator` child (None when it has
   none), and whether its type is the top node of a grammar.
   */
  datatype Node = Node(name: string, lastChild: Option<string>, arrowEnd: Option<nat>, isTop: bool)

  type Chain = seq<Node>

  /** The names the walk looks for: a single name, or an array of names. */
  datatype NodeNames = Single(name: string) | AnyOf(names: seq<string>) {
    predicate Has(n: string) {
      match this
      case Single(m) => m == n
      case AnyOf(ms) => n in ms
    }
  }

  /** How complete the matched node's parse is: the source's 1 and 2. */
  datatype Level = Incomplete | Complete {
    function Code(): int {
      if Complete? then 2 else 1
    }
  }

  /** A match of the walk: its level and the index of the matched node in the chain. */
  datatype Found = Found(level: Level, at: nat)

  /** A node whose last child exists and is not the error node is complete. */
  function LevelOf(n: Node): Level {
    if n.lastChild.Some? && n.lastChild.value != ErrorNodeName then Complete else Incomplete
  }

  /** The walk reaches `chain[j]`: no node below it is a grammar top. */
  predicate Reachable(chain: Chain, j: int) {
    0 <= j < |chain| && forall k :: 0 <= k < j ==> !chain[k].isTop
  }

  /** The name of the parent of `chain[i]`, None at the root of the chain. */
  function ParentName(chain: Chain, i: nat): Option<string> {
    if i + 1 < |chain| then Some(chain[i + 1].name) else None
  }

  /** `chain[m]` is reachable, wanted, and no node below it is wanted. */
  ghost predicate NearestIs(chain: Chain, names: NodeNames, m: int) {
    && Reachable(chain, m)
    && names.Has(chain[m].name)
    && forall j :: 0 <= j < m ==> !names.Has(chain[j].name)
  }

  /** No node the walk reaches is wanted. */
  ghost predicate Outside(chain: Chain, names: NodeNames) {
    forall j :: Reachable(chain, j) ==> !names.Has(chain[j].name)
  }

  /**
   The `inside` walk: scanning upward from the node at the cursor, the nearest node
   whose name is wanted, with its level. The name test comes before the test for a
   grammar top, so a top node can itself match, but nothing above it is examined.
   */
  function Inside(chain: Chain, names: NodeNames): (r: Option<Found>)
    ensures r.Some? ==> NearestIs(chain, names, r.value.at)
    ensures r.Some? ==> (r.value.level == Complete <==>
                          chain[r.value.at].lastChild.Some? && chain[r.value.at].lastChild.value != ErrorNodeName)
    ensures r.None? <==> Outside(chain, names)
  {
    if |chain| == 0 then None
    else if names.Has(chain[0].name) then Some(Found(LevelOf(chain[0]), 0))
    else if chain[0].isTop then None
    else
      match Inside(chain[1..], names)
      case None => None
      case Some(f) => Some(Found(f.level, f.at + 1))
  }

  /**
   Two chains that agree up to and including some top node give the same walk.
   */
  lemma {:induction false} InsideStopsAtTop(c1: Chain, c2: Chain, t: nat, names: NodeNames)
    requires t < |c1| && t < |c2| && c1[t].isTop
    requires forall k :: 0 <= k <= t ==> c1[k] == c2[k]
    ensures Inside(c1, names) == Inside(c2, names)
  {
    if t > 0 && !names.Has(c1[0].name) && !c1[0].isTop {
      InsideStopsAtTop(c1[1..], c2[1..], t - 1, names);
    }
  }

  /** Conversely, the nearest wanted node is exactly what the walk returns, with its level. */
  lemma InsideIsNearest(chain: Chain, names: NodeNames, m: int)
    requires NearestIs(chain, names, m)
    ensures Inside(chain, names) == Some(Found(LevelOf(chain[m]), m))
  {
    var r := Inside(chain, names);
    assert !Outside(chain, names);
  }
}
