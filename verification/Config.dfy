/** The configuration tree: one node per `<axis>` element (include/IAPBoard.hpp:94-180). Reading
    and writing the XML file are not part of this model; a node always holds every element. */
module Config {
  import opened Basics
  import opened Controller

  datatype UnitConversion = UnitConversion(unitName: string, factor: real, offset: int)

  datatype InitParameters = InitParameters(
    halfAxisTurns: nat, preRangeFac: real, rangeFac: real,
    constForwardSoftLimit: real, constBackwardSoftLimit: real)

  datatype Node = Node(id: nat, desc: string, settings: Settings, conv: UnitConversion, init: InitParameters)

  /** The elements the program writes. */
  datatype Element = PositionElement | OffsetElement | LowerLimitElement | UpperLimitElement

  function Put(n: Node, e: Element, v: int): Node {
    match e
    case PositionElement => n.(settings := n.settings.(position := v))
    case OffsetElement => n.(conv := n.conv.(offset := v))
    case LowerLimitElement => n.(settings := n.settings.(lowerLimit := v))
    case UpperLimitElement => n.(settings := n.settings.(upperLimit := v))
  }

  function Get(n: Node, e: Element): int {
    match e
    case PositionElement => n.settings.position
    case OffsetElement => n.conv.offset
    case LowerLimitElement => n.settings.lowerLimit
    case UpperLimitElement => n.settings.upperLimit
  }

  // ----- specification: the tree as a sequence of nodes -----

  ghost predicate Listed(nodes: seq<Node>, id: nat) {
    exists i :: 0 <= i < |nodes| && nodes[i].id == id
  }

  ghost predicate DistinctNodes(nodes: seq<Node>) {
    forall i, j :: 0 <= i < j < |nodes| ==> nodes[i].id != nodes[j].id
  }

  /** The node `getaxispt` returns: the first with this id. */
  function FirstNode(nodes: seq<Node>, id: nat): (n: Node)
    requires Listed(nodes, id)
    ensures n in nodes && n.id == id
  {
    if nodes[0].id == id then nodes[0] else FirstNode(nodes[1..], id)
  }

  /** `setAxisElement`: the element is written in every node with this id. */
  function PutAll(nodes: seq<Node>, id: nat, e: Element, v: int): (r: seq<Node>)
    ensures |r| == |nodes| && forall i :: 0 <= i < |nodes| ==> r[i].id == nodes[i].id
  {
    seq(|nodes|, i requires 0 <= i < |nodes| => if nodes[i].id == id then Put(nodes[i], e, v) else nodes[i])
  }

  /** `getAxisElement`: the last node with this id decides, and 0 stands for a missing axis. */
  function GetLast<T>(nodes: seq<Node>, id: nat, read: Node -> T, zero: T): T {
    if nodes == [] then zero
    else if nodes[|nodes| - 1].id == id then read(nodes[|nodes| - 1])
    else GetLast(nodes[..|nodes| - 1], id, read, zero)
  }

  /** What was put is what both getters return, for the axis concerned; every other element of
      every node is as before. */
  lemma {:induction false} PutThenFirst(nodes: seq<Node>, id: nat, e: Element, v: int, other: nat)
    requires Listed(nodes, other)
    ensures Listed(PutAll(nodes, id, e, v), other)
    ensures FirstNode(PutAll(nodes, id, e, v), other) ==
      if other == id then Put(FirstNode(nodes, other), e, v) else FirstNode(nodes, other)
    decreases |nodes|
  {
    var after := PutAll(nodes, id, e, v);
    var i :| 0 <= i < |nodes| && nodes[i].id == other;
    assert after[i].id == other;
    if nodes[0].id != other {
      assert nodes[1..][i - 1].id == other;
      assert after[1..] == PutAll(nodes[1..], id, e, v);
      PutThenFirst(nodes[1..], id, e, v, other);
    }
  }

  lemma {:induction false} PutThenGetLast(nodes: seq<Node>, id: nat, e: Element, v: int)
    ensures GetLast(PutAll(nodes, id, e, v), id, (n: Node) => Get(n, e), 0) ==
      if Listed(nodes, id) then v else 0
    decreases |nodes|
  {
    var after := PutAll(nodes, id, e, v);
    if nodes != [] {
      var last := |nodes| - 1;
      if nodes[last].id != id {
        assert after[..last] == PutAll(nodes[..last], id, e, v);
        PutThenGetLast(nodes[..last], id, e, v);
        assert Listed(nodes, id) <==> Listed(nodes[..last], id) by {
          if i :| 0 <= i < |nodes| && nodes[i].id == id {
            assert nodes[..last][i].id == id;
          }
          if i :| 0 <= i < last && nodes[..last][i].id == id {
            assert nodes[i].id == id;
          }
        }
      }
    }
  }

  /** With distinct ids both getters look at the same node. */
  lemma {:induction false} GettersAgree<T>(nodes: seq<Node>, id: nat, read: Node -> T, zero: T)
    requires DistinctNodes(nodes) && Listed(nodes, id)
    ensures GetLast(nodes, id, read, zero) == read(FirstNode(nodes, id))
    decreases |nodes|
  {
    var last := |nodes| - 1;
    if nodes[last].id == id {
      var n := FirstNode(nodes, id);
      var i :| 0 <= i < |nodes| && nodes[i] == n;
      assert i == last;
    } else {
      var i :| 0 <= i < |nodes| && nodes[i].id == id;
      assert nodes[..last][i].id == id;
      FirstNodePrefix(nodes, last, id);
      GettersAgree(nodes[..last], id, read, zero);
    }
  }

  lemma {:induction false} FirstNodePrefix(nodes: seq<Node>, n: nat, id: nat)
    requires n <= |nodes| && Listed(nodes[..n], id) && Listed(nodes, id)
    ensures FirstNode(nodes[..n], id) == FirstNode(nodes, id)
    decreases |nodes|
  {
    var i :| 0 <= i < n && nodes[..n][i].id == id;
    if nodes[0].id != id {
      assert nodes[..n][1..] == nodes[1..][..n - 1];
      assert nodes[1..][i - 1].id == id && nodes[..n][1..][i - 1].id == id;
      FirstNodePrefix(nodes[1..], n - 1, id);
    }
  }

  /** With repeated ids `getaxispt` takes the first node and `getAxisElement` the last one. */
  lemma {:induction false} FirstAndLast<T>(nodes: seq<Node>, j: nat, read: Node -> T, zero: T)
    requires j < |nodes|
    ensures Listed(nodes, nodes[j].id)
    ensures (forall k :: 0 <= k < j ==> nodes[k].id != nodes[j].id) ==> FirstNode(nodes, nodes[j].id) == nodes[j]
    ensures (forall k :: j < k < |nodes| ==> nodes[k].id != nodes[j].id) ==>
      GetLast(nodes, nodes[j].id, read, zero) == read(nodes[j])
    decreases |nodes|
  {
    var last := |nodes| - 1;
    if j > 0 && nodes[0].id != nodes[j].id {
      assert nodes[1..][j - 1] == nodes[j];
      FirstAndLast(nodes[1..], j - 1, read, zero);
    }
    if j < last && nodes[last].id != nodes[j].id {
      assert nodes[..last][j] == nodes[j];
      FirstAndLast(nodes[..last], j, read, zero);
    }
  }

  // ----- the class -----

  class IAPConfig {
    var nodes: seq<Node>

    constructor (tree: seq<Node>)
      ensures nodes == tree
    {
      nodes := tree;
    }

    /** `getaxispt`; None stands for the exception it throws for an unknown id. */
    method GetAxisPt(id: nat) returns (r: Option<Node>)
      ensures r.Some? <==> Listed(nodes, id)
      ensures r.Some? ==> r.value == FirstNode(nodes, id)
    {
      var i := 0;
      while i < |nodes|
        invariant 0 <= i <= |nodes|
        invariant forall j :: 0 <= j < i ==> nodes[j].id != id
        invariant Listed(nodes, id) <==> Listed(nodes[i..], id)
        invariant Listed(nodes, id) ==> FirstNode(nodes, id) == FirstNode(nodes[i..], id)
      {
        if nodes[i].id == id {
          assert nodes[i..][0] == nodes[i];
          return Some(nodes[i]);
        }
        SkipNode(nodes[i..], id);
        assert nodes[i..][1..] == nodes[i + 1..];
        i := i + 1;
      }
      return None;
    }

    method SetAxisElement(axnr: nat, e: Element, value: int)
      modifies this
      ensures nodes == PutAll(old(nodes), axnr, e, value)
    {
      var i := 0;
      while i < |nodes|
        invariant 0 <= i <= |nodes| == |old(nodes)|
        invariant forall j :: 0 <= j < i ==> nodes[j] == PutAll(old(nodes), axnr, e, value)[j]
        invariant forall j :: i <= j < |nodes| ==> nodes[j] == old(nodes)[j]
      {
        if nodes[i].id == axnr {
          nodes := nodes[i := Put(nodes[i], e, value)];
        }
        i := i + 1;
      }
    }

    method GetAxisElement<T>(axnr: nat, read: Node -> T, zero: T) returns (retval: T)
      ensures retval == GetLast(nodes, axnr, read, zero)
    {
      retval := zero;
      var i := 0;
      while i < |nodes|
        invariant 0 <= i <= |nodes|
        invariant retval == GetLast(nodes[..i], axnr, read, zero)
      {
        assert nodes[..i + 1][..i] == nodes[..i];
        if nodes[i].id == axnr {
          retval := read(nodes[i]);
        }
        i := i + 1;
      }
      assert nodes[..i] == nodes;
    }
  }

  lemma SkipNode(nodes: seq<Node>, id: nat)
    requires nodes != [] && nodes[0].id != id
    ensures Listed(nodes, id) <==> Listed(nodes[1..], id)
    ensures Listed(nodes, id) ==> FirstNode(nodes, id) == FirstNode(nodes[1..], id)
  {
    if i :| 0 <= i < |nodes| && nodes[i].id == id {
      assert nodes[1..][i - 1].id == id;
    }
    if i :| 0 <= i < |nodes[1..]| && nodes[1..][i].id == id {
      assert nodes[i + 1].id == id;
    }
  }
}
