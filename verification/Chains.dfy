/** The linked lists as values: which nodes a list has, whatever the nodes look like. */
module Chains {
  import opened Seqs

  /** The nodes of a list in order, and a set of nodes that has them all and is the list's own. */
  datatype Chain<N(==)> = Chain(nodes: seq<N>, own: set<N>)

  ghost function Empty<N>(): Chain<N> { Chain([], {}) }

  ghost function Cons<N>(n: N, l: Chain<N>): Chain<N> { Chain([n] + l.nodes, l.own + {n}) }

  ghost function Snoc<N>(l: Chain<N>, n: N): Chain<N> { Chain(l.nodes + [n], l.own + {n}) }

  ghost function Both<N>(l: Chain<N>, m: Chain<N>): Chain<N> { Chain(l.nodes + m.nodes, l.own + m.own) }

  ghost function Rest<N>(l: Chain<N>): Chain<N>
    requires l.nodes != []
  {
    Chain(l.nodes[1..], l.own - {l.nodes[0]})
  }

  ghost function Without<N>(l: Chain<N>, i: nat): Chain<N>
    requires i < |l.nodes|
  {
    Chain(Drop(l.nodes, i), l.own - {l.nodes[i]})
  }
}
