/**
  The command tree's data: a `Command` record of command/command.go, its flag
  definitions, and the invariants that tie a child to its parent.

  Go links commands by pointers; here every command lives in one arena, a
  `seq<Node>`, and a pointer is an index into it. A child is always stored
  after its parent (it is created later), which is what makes every walk to
  the root and every descent towards the leaves terminate.
 */
module Tree {
  import opened Wrappers

  type NodeId = nat

  /** The dependency-injection container, passed around but never inspected. */
  datatype Injector = Injector(id: nat)

  /**
    A flag's default value, as a tagged variant instead of Go's `any`.
    `Other` stands for any type whose `%T` and `%v` renderings the model
    takes as given.
   */
  datatype Value = Bool(b: bool) | Str(s: string) | Int(i: int) | Other(typeName: string, shown: string)

  /** Go's `%T` of a default value. */
  function TypeName(v: Value): string
  {
    match v
    case Bool(_) => "bool"
    case Str(_) => "string"
    case Int(_) => "int"
    case Other(t, _) => t
  }

  function Digits(n: nat): string
    decreases n
  {
    var d := ['0', '1', '2', '3', '4', '5', '6', '7', '8', '9'][n % 10];
    if n < 10 then [d] else Digits(n / 10) + [d]
  }

  /** Go's `%v` of a default value. */
  function Show(v: Value): string
  {
    match v
    case Bool(b) => if b then "true" else "false"
    case Str(s) => s
    case Int(i) => if i < 0 then "-" + Digits(-i) else Digits(i)
    case Other(_, s) => s
  }

  /** A registered flag: the parts of `flags.Flag` the help renderer reads. */
  datatype Flag = Flag(description: string, aliases: seq<string>, optional: bool, default: Value)

  /**
    A command's `Fn`: nil, the help renderer of the command `owner` (the
    closure `owner.help()`, which `create` installs on `owner`'s help leaf and
    the host may copy elsewhere), or a handler supplied by the host program.
   */
  datatype Handler = Nil | Help(owner: NodeId) | Custom(id: nat)

  /**
    One `Command`. `localFlags` and `globalFlags` are the flag sets the help
    renderer of command/help.go reads; the single `FlagSet` that `Execute`
    parses is the parser given to the router.
   */
  datatype Node = Node(
    name: string,
    description: string,
    injector: Injector,
    fn: Handler,
    children: map<string, NodeId>,
    parent: Option<NodeId>,
    localFlags: map<string, Flag>,
    globalFlags: map<string, Flag>)

  /** Node `i` and its links agree with its parent and its children. */
  predicate Linked(nodes: seq<Node>, i: NodeId)
    requires i < |nodes|
  {
    var n := nodes[i];
    && (match n.parent
        case None => true
        case Some(p) =>
          && p < i
          && n.name in nodes[p].children && nodes[p].children[n.name] == i
          && n.injector == nodes[p].injector)
    && (forall c :: c in n.children ==>
          && i < n.children[c] < |nodes|
          && nodes[n.children[c]].parent == Some(i)
          && nodes[n.children[c]].name == c)
    && (n.fn.Help? ==> n.fn.owner < |nodes|)
  }

  /** The tree invariant: every child names its parent, every parent maps the child's name to it. */
  predicate WellFormed(nodes: seq<Node>)
  {
    forall i :: 0 <= i < |nodes| ==> Linked(nodes, i)
  }

  /** Every command either has a handler or a `help` child to defer to. */
  predicate Dispatchable(nodes: seq<Node>)
  {
    forall i :: 0 <= i < |nodes| ==> nodes[i].fn != Nil || "help" in nodes[i].children
  }

  /** The index of child `name` of `id`: stored after its parent. */
  function Child(nodes: seq<Node>, id: NodeId, name: string): (c: NodeId)
    requires WellFormed(nodes) && id < |nodes| && name in nodes[id].children
    ensures id < c < |nodes| && nodes[c].parent == Some(id) && nodes[c].name == name
  {
    assert Linked(nodes, id);
    nodes[id].children[name]
  }

  /** Number of ancestors of `id`. */
  function Depth(nodes: seq<Node>, id: NodeId): nat
    requires WellFormed(nodes) && id < |nodes|
    decreases id
  {
    assert Linked(nodes, id);
    match nodes[id].parent
    case None => 0
    case Some(p) => 1 + Depth(nodes, p)
  }

  /** `a` is `n` or one of its ancestors. */
  predicate IsAncestorOrSelf(nodes: seq<Node>, a: NodeId, n: NodeId)
    requires WellFormed(nodes) && n < |nodes|
    decreases n
  {
    assert Linked(nodes, n);
    n == a || (nodes[n].parent.Some? && IsAncestorOrSelf(nodes, a, nodes[n].parent.value))
  }

  /** The ancestor relation is transitive. */
  lemma {:induction false} AncestorTransitive(nodes: seq<Node>, a: NodeId, b: NodeId, c: NodeId)
    requires WellFormed(nodes) && b < |nodes| && c < |nodes|
    requires IsAncestorOrSelf(nodes, a, b) && IsAncestorOrSelf(nodes, b, c)
    ensures IsAncestorOrSelf(nodes, a, c)
    decreases c
  {
    assert Linked(nodes, c);
    if c != b {
      AncestorTransitive(nodes, a, b, nodes[c].parent.value);
    }
  }

  /** An ancestor is stored no later than its descendant and is no deeper. */
  lemma {:induction false} AncestorBefore(nodes: seq<Node>, a: NodeId, n: NodeId)
    requires WellFormed(nodes) && n < |nodes| && IsAncestorOrSelf(nodes, a, n)
    ensures a <= n && Depth(nodes, a) <= Depth(nodes, n)
    ensures a == n || Depth(nodes, a) < Depth(nodes, n)
    decreases n
  {
    assert Linked(nodes, n);
    if n != a {
      AncestorBefore(nodes, a, nodes[n].parent.value);
    }
  }

  /** A child is a descendant of its parent, one level deeper. */
  lemma ChildOf(nodes: seq<Node>, p: NodeId, name: string)
    requires WellFormed(nodes) && p < |nodes| && name in nodes[p].children
    ensures var c := nodes[p].children[name];
      c < |nodes| && p < c && nodes[c].parent == Some(p) && IsAncestorOrSelf(nodes, p, c)
      && Depth(nodes, c) == Depth(nodes, p) + 1
  {
    assert Linked(nodes, p);
    var c := nodes[p].children[name];
    assert Linked(nodes, c);
  }
}
