/** The source nodes of src/bookkeeping/peer.cpp with their links. `PeerRequests` keeps the same
    lists as sequences, tail first; `Held` is that sequence. */
module SourceLists {
  import opened PeerTable

  class Node {
    var source: Source
    var next: Node?

    constructor ()
      ensures source == NO_SOURCE && next == null
    {
      source, next := NO_SOURCE, null;
    }
  }

  function NodeAt(nodes: seq<Node>, k: nat): Node? {
    if k < |nodes| then nodes[k] else null
  }

  ghost predicate Distinct(nodes: seq<Node>) {
    forall j, k :: 0 <= j < k < |nodes| ==> nodes[j] != nodes[k]
  }

  /** The list that starts at `head` has exactly these nodes, each once. */
  ghost predicate Links(head: Node?, nodes: seq<Node>)
    reads nodes
  {
    && head == NodeAt(nodes, 0)
    && Distinct(nodes)
    && forall k :: 0 <= k < |nodes| ==> nodes[k].next == NodeAt(nodes, k + 1)
  }

  ghost predicate Disjoint(cs: seq<Node>, ss: seq<Node>) {
    forall n :: n in cs ==> n !in ss
  }

  /** What the nodes hold, the last node first. */
  ghost function Held(nodes: seq<Node>): (s: seq<Source>)
    reads nodes
    ensures |s| == |nodes|
  {
    seq(|nodes|, k requires 0 <= k < |nodes| reads nodes => nodes[|nodes| - 1 - k].source)
  }

  lemma {:induction false} DistinctAppend(cs: seq<Node>, ss: seq<Node>)
    requires Distinct(cs) && Distinct(ss) && Disjoint(cs, ss)
    ensures Distinct(cs + ss)
  {
    forall j, k | 0 <= j < k < |cs + ss|
      ensures (cs + ss)[j] != (cs + ss)[k]
    {
      assert j < |cs| <= k ==> cs[j] in cs && ss[k - |cs|] in ss;
    }
  }

  /** A chain whose last node points to the list `sources`. */
  lemma {:induction false} LinksAppend(cs: seq<Node>, ss: seq<Node>, sources: Node?)
    requires cs != [] && Distinct(cs) && Disjoint(cs, ss) && Links(sources, ss)
    requires forall k :: 0 <= k < |cs| ==> cs[k].next == if k + 1 == |cs| then sources else NodeAt(cs, k + 1)
    ensures Links(cs[0], cs + ss)
  {
    hide Distinct;
    DistinctAppend(cs, ss);
    forall k | 0 <= k < |cs + ss|
      ensures (cs + ss)[k].next == NodeAt(cs + ss, k + 1)
    {
      if k < |cs| {
        assert (cs + ss)[k] == cs[k];
      } else {
        assert (cs + ss)[k] == ss[k - |cs|];
        assert NodeAt(cs + ss, k + 1) == NodeAt(ss, k - |cs| + 1);
      }
    }
  }

  lemma {:induction false} HeldAppend(cs: seq<Node>, ss: seq<Node>)
    ensures Held(cs + ss) == Held(ss) + Held(cs)
  {
  }

  /** FreePeerRequestRecord: walk to the last node of the chain and put the free list behind it. */
  method Splice(chain: Node?, sources: Node?, ghost cs: seq<Node>, ghost ss: seq<Node>, ghost t: Table, ghost i: nat)
    returns (head: Node?)
    requires Links(chain, cs) && Links(sources, ss) && Disjoint(cs, ss)
    requires i < |t.records| && Held(cs) == t.records[i].chain && Held(ss) == t.sources
    modifies cs
    ensures Links(head, cs + ss)
    ensures Held(cs + ss) == old(Held(ss)) + old(Held(cs)) == Free(t, i).sources
  {
    HeldAppend(cs, ss);
    var last := Last(chain, cs);
    if last != null {
      LinkBehind(last, sources, cs, ss);
      head := chain;
    } else {
      assert cs + ss == ss;
      head := sources;
    }
    HeldAppend(cs, ss);
  }

  /** Putting the free list behind the last node. */
  method LinkBehind(last: Node, sources: Node?, ghost cs: seq<Node>, ghost ss: seq<Node>)
    requires cs != [] && last == cs[|cs| - 1] && Links(cs[0], cs) && Links(sources, ss) && Disjoint(cs, ss)
    modifies cs
    ensures Links(cs[0], cs + ss) && Held(cs + ss) == old(Held(cs + ss))
  {
    assert last in cs && last !in ss;
    last.next := sources;
    LinksAppend(cs, ss, sources);
  }

  /** The loop that looks for the last node. */
  method Last(chain: Node?, ghost cs: seq<Node>) returns (last: Node?)
    requires Links(chain, cs)
    ensures last == if cs == [] then null else cs[|cs| - 1]
  {
    last := chain;
    ghost var k := 0;
    while last != null && last.next != null
      invariant last == NodeAt(cs, k)
      invariant cs != [] ==> k < |cs|
      decreases |cs| - k
    {
      assert cs[k].next == NodeAt(cs, k + 1);
      last := last.next;
      k := k + 1;
    }
    assert cs != [] ==> cs[k].next == NodeAt(cs, k + 1);
  }

  /** GetNewPeerSource: the first node of the free list, or a new one, comes off the list. */
  method Take(sources: Node?, mayCreate: bool, ghost ss: seq<Node>, ghost t: Table) returns (node: Node?, rest: Node?)
    requires Links(sources, ss) && Held(ss) == t.sources && (mayCreate <==> t.sourceCount < 150)
    modifies ss
    ensures node != null <==> GetNewPeerSource(t).1
    ensures ss != [] ==> Held(ss[1..]) == GetNewPeerSource(t).0.sources
    ensures node == null <==> ss == [] && !mayCreate
    ensures node != null ==> node.next == null && if ss == [] then fresh(node) else node == ss[0]
    ensures if ss == [] then rest == null else Links(rest, ss[1..]) && Held(ss[1..]) == old(Held(ss))[..|ss| - 1]
  {
    node, rest := sources, null;
    if node == null && mayCreate {
      node := new Node();
    }
    if node != null {
      rest := node.next;
      node.next := null;
    }
  }

  /** `resolve`: the node goes in front of the record's chain and is filled in. */
  method Attach(node: Node, chain: Node?, c: Source, ghost cs: seq<Node>)
    requires Links(chain, cs) && node !in cs
    modifies node
    ensures Links(node, [node] + cs) && Held([node] + cs) == old(Held(cs)) + [c]
  {
    node.next := chain;
    node.source := c;
  }
}
