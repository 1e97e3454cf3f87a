// Whole trees of nodes: what they stand for, pointers into them, copies of them and their deletion.
module Trees {
  import opened Documents
  import opened Nodes

  /**
   * A picture of a tree: the nodes that it reaches by child and next, and what their fields hold.
   * A reference has the children of another node, so a node may be reached twice.
   */
  datatype Shape = Shape(node: Node, data: Data, kids: seq<Shape>)

  datatype Data = Data(tag: Tag, key: string, valuestring: string, valueint: int, valuedouble: real, isReference: bool)

  function DataOf(n: Node): Data
    reads n`tag, n`key, n`valuestring, n`valueint, n`valuedouble, n`isReference
  {
    Data(n.tag, n.key, n.valuestring, n.valueint, n.valuedouble, n.isReference)
  }

  function Roots(kids: seq<Shape>): (s: seq<Node>)
    ensures |s| == |kids| && forall i :: 0 <= i < |kids| ==> s[i] == kids[i].node
  {
    seq(|kids|, i requires 0 <= i < |kids| => kids[i].node)
  }

  function NodesOf(t: Shape): (r: set<Node>)
    ensures t.node in r && NodesOfAll(t.kids) <= r
    decreases t, 0
  {
    {t.node} + NodesOfAll(t.kids)
  }

  function NodesOfAll(kids: seq<Shape>): (r: set<Node>)
    ensures forall i :: 0 <= i < |kids| ==> NodesOf(kids[i]) <= r
    decreases kids, 1
  {
    if kids == [] then {} else NodesOf(kids[0]) + NodesOfAll(kids[1..])
  }

  /** From the first node on, next leads through the list and to its end. */
  ghost predicate Reaches(first: Node?, kids: seq<Shape>)
    reads NodesOfAll(kids)
  {
    && first == (if kids == [] then null else kids[0].node)
    && forall i {:trigger kids[i].node.next} :: 0 <= i < |kids| ==>
      kids[i].node.next == if i + 1 < |kids| then kids[i + 1].node else null
  }

  function KidNode(kids: seq<Shape>, i: nat): Node? { if i < |kids| then kids[i].node else null }

  /** The heap is as pictured; keys are C strings; only arrays and objects have children. */
  ghost predicate Has(t: Shape)
    reads t.node`child, t.node`tag, t.node`key, t.node`valuestring, t.node`valueint, t.node`valuedouble, t.node`isReference
    reads NodesOfAll(t.kids)
    decreases t, 0
  {
    && DataOf(t.node) == t.data && '\0' !in t.data.key
    && Reaches(t.node.child, t.kids) && HasAll(t.kids)
    && (t.kids != [] ==> t.data.tag == ARRAY || t.data.tag == OBJECT)
  }

  ghost predicate HasAll(kids: seq<Shape>)
    reads NodesOfAll(kids)
    decreases kids, 1
  {
    forall i :: 0 <= i < |kids| ==> Has(kids[i])
  }

  /** The nodes of a picture are nodes of this heap, so calls that change nothing leave them as they are. */
  lemma {:induction false} NodesExist(t: Shape)
    ensures forall n :: n in NodesOf(t) ==> allocated(n)
    ensures forall n :: n in NodesOfAll(t.kids) ==> allocated(n)
    decreases t, 0
  {
    NodesExistAll(t.kids);
  }

  lemma {:induction false} NodesExistAll(kids: seq<Shape>)
    ensures forall n :: n in NodesOfAll(kids) ==> allocated(n)
    decreases kids, 1
  {
    if kids != [] {
      NodesExist(kids[0]);
      NodesExistAll(kids[1..]);
    }
  }

  // ----- the value of a tree

  function ToJson(t: Shape): Json
    decreases t, 0
  {
    match t.data.tag
    case INVALID => Json.Invalid
    case FALSE => Json.False
    case TRUE => Json.True
    case NULL => Json.Null
    case NUMBER => Json.Number(t.data.valueint, t.data.valuedouble)
    case STRING => Json.String(t.data.valuestring)
    case ARRAY => Json.Array(ToItems(t.kids))
    case OBJECT => Json.Object(ToMembers(t.kids))
  }

  function ToItems(kids: seq<Shape>): (r: seq<Json>)
    ensures |r| == |kids| && forall i :: 0 <= i < |kids| ==> r[i] == ToJson(kids[i])
    decreases kids, 1
  {
    if kids == [] then [] else [ToJson(kids[0])] + ToItems(kids[1..])
  }

  function ToMembers(kids: seq<Shape>): (r: seq<Member<Json>>)
    ensures |r| == |kids| && forall i :: 0 <= i < |kids| ==> r[i] == Member(kids[i].data.key, ToJson(kids[i]))
    decreases kids, 1
  {
    if kids == [] then [] else [Member(kids[0].data.key, ToJson(kids[0]))] + ToMembers(kids[1..])
  }
}
