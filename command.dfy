/**
  Tree construction and execution of command/command.go as a class over the
  arena of `Tree`: `New`, `create`, `add`/`Add`, the assignment of a
  command's `Fn`, flag registration, and `Execute`.
 */
module Command {
  import opened Wrappers
  import opened Tree
  import opened Router
  import Render

  /** The description `create` gives every `help` leaf. */
  const HelpDescription := "Display usage information for this command."

  /** The command `create` makes before any child is attached: no handler, no children, no parent, no flags. */
  function Fresh(name: string, description: string, injector: Injector): Node
  {
    Node(name, description, injector, Nil, map[], None, map[], map[])
  }

  /**
    The nodes `create` appends at index `id`: the command itself and, with
    `makeHelp`, its `help` leaf at `id + 1`, whose handler is the command's renderer.
   */
  function Created(name: string, description: string, injector: Injector, makeHelp: bool, id: NodeId): seq<Node>
  {
    if makeHelp then
      [ Fresh(name, description, injector).(children := map["help" := id + 1]),
        Fresh("help", HelpDescription, injector).(fn := Help(id), parent := Some(id)) ]
    else
      [ Fresh(name, description, injector) ]
  }

  /** The nodes after a successful `add(name, ...)` on command `p`. */
  function Attached(nodes: seq<Node>, p: NodeId, name: string, description: string, makeHelp: bool): seq<Node>
    requires p < |nodes|
  {
    var c := |nodes|;
    var made := Created(name, description, nodes[p].injector, makeHelp, c);
    nodes[p := nodes[p].(children := nodes[p].children[name := c])] + [made[0].(parent := Some(p))] + made[1..]
  }

  /** A freshly created command, with its help leaf, is a well-formed new root. */
  lemma CreatedWellFormed(nodes: seq<Node>, name: string, description: string, injector: Injector, makeHelp: bool)
    requires WellFormed(nodes)
    ensures WellFormed(nodes + Created(name, description, injector, makeHelp, |nodes|))
  {
    var r := nodes + Created(name, description, injector, makeHelp, |nodes|);
    forall i | 0 <= i < |r| ensures Linked(r, i) {
      if i < |nodes| {
        assert Linked(nodes, i);
        assert forall k :: k in nodes[i].children ==> r[nodes[i].children[k]] == nodes[nodes[i].children[k]];
      }
    }
  }

  /** Adding a child under a name `p` does not use yet keeps the tree well formed. */
  lemma AttachedWellFormed(nodes: seq<Node>, p: NodeId, name: string, description: string, makeHelp: bool)
    requires WellFormed(nodes) && p < |nodes| && name !in nodes[p].children
    ensures WellFormed(Attached(nodes, p, name, description, makeHelp))
  {
    var r := Attached(nodes, p, name, description, makeHelp);
    var c := |nodes|;
    forall i | 0 <= i < |r| ensures Linked(r, i) {
      if i < c {
        assert Linked(nodes, i);
        assert r[i].parent == nodes[i].parent && r[i].name == nodes[i].name;
        forall k | k in nodes[i].children
          ensures r[nodes[i].children[k]].parent == Some(i) && r[nodes[i].children[k]].name == k
        {
          assert Linked(nodes, nodes[i].children[k]);
        }
        if nodes[i].parent.Some? {
          var q := nodes[i].parent.value;
          assert Linked(nodes, q);
          assert q == p ==> nodes[i].name != name;
        }
      }
    }
  }

  /**
    What a successful `add` does: the new command is stored under exactly
    `name`, its parent is `p`, it shares `p`'s injector and has no handler;
    with `makeHelp` it has one child, a `help` leaf without children whose
    handler is the new command's renderer. Every other command is unchanged;
    `p` changes only by the new entry, so its other children stay as they were.
   */
  lemma AttachedFacts(nodes: seq<Node>, p: NodeId, name: string, description: string, makeHelp: bool)
    requires WellFormed(nodes) && p < |nodes| && name !in nodes[p].children
    ensures var r := Attached(nodes, p, name, description, makeHelp);
      var c := |nodes|;
      && |r| == |nodes| + (if makeHelp then 2 else 1)
      && name in r[p].children && r[p].children[name] == c
      && r[p].children.Keys == nodes[p].children.Keys + {name}
      && (forall k :: k in nodes[p].children ==> r[p].children[k] == nodes[p].children[k])
      && r[p] == nodes[p].(children := r[p].children)
      && r[c].name == name && r[c].description == description
      && r[c].parent == Some(p) && r[c].injector == nodes[p].injector && r[c].fn == Nil
      && r[c].localFlags == map[] && r[c].globalFlags == map[]
      && (makeHelp ==>
            (r[c].children.Keys == {"help"}
             && var h := r[c].children["help"];
                h < |r| && r[h].children == map[] && r[h].fn == Help(c) && r[h].description == HelpDescription))
      && (!makeHelp ==> r[c].children == map[])
      && (forall i :: 0 <= i < |nodes| && i != p ==> r[i] == nodes[i])
  {
  }

  /** The new command's usage line extends its parent's by its own name. */
  lemma AttachedUsage(nodes: seq<Node>, p: NodeId, name: string, description: string, makeHelp: bool)
    requires WellFormed(nodes) && p < |nodes| && name !in nodes[p].children
    ensures var r := Attached(nodes, p, name, description, makeHelp);
      WellFormed(r) && Render.UsageLine(r, |nodes|) == Render.UsageLine(nodes, p) + " " + name
  {
    var r := Attached(nodes, p, name, description, makeHelp);
    AttachedWellFormed(nodes, p, name, description, makeHelp);
    UsageFrame(nodes, r, p);
  }

  /** The usage line reads only names and parents. */
  lemma {:induction false} UsageFrame(nodes: seq<Node>, r: seq<Node>, id: NodeId)
    requires WellFormed(nodes) && WellFormed(r) && id < |nodes| <= |r|
    requires forall i :: 0 <= i < |nodes| ==> r[i].name == nodes[i].name && r[i].parent == nodes[i].parent
    ensures Render.UsageLine(r, id) == Render.UsageLine(nodes, id)
    decreases id
  {
    assert Linked(nodes, id);
    if nodes[id].parent.Some? {
      UsageFrame(nodes, r, nodes[id].parent.value);
    }
  }

  /** Adding with `makeHelp` keeps every command dispatchable: the new one defers to its help leaf. */
  lemma AttachedDispatchable(nodes: seq<Node>, p: NodeId, name: string, description: string)
    requires p < |nodes| && Dispatchable(nodes)
    ensures Dispatchable(Attached(nodes, p, name, description, true))
  {
    var r := Attached(nodes, p, name, description, true);
    forall i | 0 <= i < |r| ensures r[i].fn != Nil || "help" in r[i].children {
      if i == p {
        assert nodes[p].fn != Nil || "help" in nodes[p].children;
      }
    }
  }

  /** Every command's injector is one of the first `issued` handed out. */
  predicate InjectorsIssued(nodes: seq<Node>, issued: nat)
  {
    forall i :: 0 <= i < |nodes| ==> nodes[i].injector.id < issued
  }

  /**
    Every command of the program and the injectors handed out so far.
    Commands are never removed; a command's index is its identity.
   */
  class CommandTree {
    var nodes: seq<Node>
    var injectors: nat

    predicate Valid()
      reads this
    {
      WellFormed(nodes) && InjectorsIssued(nodes, injectors)
    }

    constructor()
      ensures Valid() && nodes == [] && injectors == 0
    {
      nodes := [];
      injectors := 0;
    }

    /** `New`: a root with a fresh injector and a `help` leaf. */
    method New(name: string, description: string) returns (id: NodeId)
      requires Valid()
      modifies this
      ensures Valid() && injectors == old(injectors) + 1
      ensures id == |old(nodes)|
      ensures nodes == old(nodes) + Created(name, description, Injector(old(injectors)), true, id)
      ensures forall i :: 0 <= i < |old(nodes)| ==> old(nodes)[i].injector != nodes[id].injector
      ensures old(Dispatchable(nodes)) ==> Dispatchable(nodes)
    {
      var injector := Injector(injectors);
      injectors := injectors + 1;
      id := Create(name, description, injector, true);
    }

    /**
      `create`. With `makeHelp` the new command adds its `help` child; that
      inner `add` cannot fail, since the new command has no children yet, so
      the `panic` of the source is unreachable here.
     */
    method Create(name: string, description: string, injector: Injector, makeHelp: bool) returns (id: NodeId)
      requires Valid() && injector.id < injectors
      modifies this
      ensures Valid() && injectors == old(injectors)
      ensures id == |old(nodes)|
      ensures nodes == old(nodes) + Created(name, description, injector, makeHelp, id)
      decreases if makeHelp then 2 else 0
    {
      ghost var before := nodes;
      CreatedWellFormed(before, name, description, injector, false);
      id := |nodes|;
      nodes := nodes + [Fresh(name, description, injector)];
      if makeHelp {
        var r := AddNode(id, "help", HelpDescription, false);
        match r
        case Failure(_) =>
          assert false;
        case Success(h) =>
          nodes := nodes[h := nodes[h].(fn := Help(id))];
          assert nodes == before + Created(name, description, injector, true, id);
          CreatedWellFormed(before, name, description, injector, true);
      }
    }

    /**
      `add`: a name already in use among `p`'s children is an error and
      changes nothing; otherwise the new command is created and attached.
     */
    method AddNode(p: NodeId, name: string, description: string, makeHelp: bool) returns (r: Result<NodeId, string>)
      requires Valid() && p < |nodes|
      modifies this
      ensures Valid() && injectors == old(injectors)
      ensures name in old(nodes)[p].children ==>
        r == Failure("command " + name + " already exists") && nodes == old(nodes)
      ensures name !in old(nodes)[p].children ==>
        r == Success(|old(nodes)|) && nodes == Attached(old(nodes), p, name, description, makeHelp)
      decreases if makeHelp then 3 else 1
    {
      if name in nodes[p].children {
        return Failure("command " + name + " already exists");
      }
      ghost var before := nodes;
      var child := Create(name, description, nodes[p].injector, makeHelp);
      nodes := nodes[child := nodes[child].(parent := Some(p))];
      nodes := nodes[p := nodes[p].(children := nodes[p].children[name := child])];
      assert nodes == Attached(before, p, name, description, makeHelp);
      AttachedWellFormed(before, p, name, description, makeHelp);
      r := Success(child);
    }

    /** `Add`: `add` with a `help` leaf for the new command. */
    method Add(p: NodeId, name: string, description: string) returns (r: Result<NodeId, string>)
      requires Valid() && p < |nodes|
      modifies this
      ensures Valid() && injectors == old(injectors)
      ensures name in old(nodes)[p].children ==>
        r == Failure("command " + name + " already exists") && nodes == old(nodes)
      ensures name !in old(nodes)[p].children ==>
        r == Success(|old(nodes)|) && nodes == Attached(old(nodes), p, name, description, true)
      ensures old(Dispatchable(nodes)) ==> Dispatchable(nodes)
    {
      ghost var before := nodes;
      r := AddNode(p, name, description, true);
      if r.Success? {
        if Dispatchable(before) {
          AttachedDispatchable(before, p, name, description);
        }
      }
    }

    /**
      The host's `cmd.Fn = f`, for any handler: its own, nil, or the help
      closure of some existing command, read from that command's `help` child.
     */
    method SetFn(id: NodeId, f: Handler)
      requires Valid() && id < |nodes| && (f.Help? ==> f.owner < |nodes|)
      modifies this
      ensures Valid() && injectors == old(injectors)
      ensures nodes == old(nodes)[id := old(nodes)[id].(fn := f)]
    {
      nodes := nodes[id := nodes[id].(fn := f)];
      assert forall i :: 0 <= i < |nodes| ==> Linked(old(nodes), i) ==> Linked(nodes, i);
    }

    /**
      Registering a flag in a command's local or global set. A name already
      in that set is rejected and changes nothing; otherwise the set maps
      `name` to `flag` afterwards.
     */
    method DefineFlag(id: NodeId, global: bool, name: string, flag: Flag) returns (ok: bool)
      requires Valid() && id < |nodes|
      modifies this
      ensures Valid() && injectors == old(injectors)
      ensures ok <==> name !in (if global then old(nodes)[id].globalFlags else old(nodes)[id].localFlags)
      ensures !ok ==> nodes == old(nodes)
      ensures ok ==> nodes == old(nodes)[id := if global
        then old(nodes)[id].(globalFlags := old(nodes)[id].globalFlags[name := flag])
        else old(nodes)[id].(localFlags := old(nodes)[id].localFlags[name := flag])]
    {
      var n := nodes[id];
      var defined := if global then n.globalFlags else n.localFlags;
      if name in defined {
        return false;
      }
      if global {
        nodes := nodes[id := n.(globalFlags := n.globalFlags[name := flag])];
      } else {
        nodes := nodes[id := n.(localFlags := n.localFlags[name := flag])];
      }
      assert forall i :: 0 <= i < |nodes| ==> Linked(old(nodes), i) ==> Linked(nodes, i);
      ok := true;
    }

    /**
      `Execute` on the first `n` entries of `a`, the slice's backing array.
      The outcome is `Route`; each descent removes its token in place, so
      afterwards the first `n` entries are `Backing`: the arguments the final
      command received, then the entries the removals left behind. Entries
      beyond `n` are untouched.
     */
    method Execute(id: NodeId, a: array<string>, n: nat, parse: Parser) returns (o: Outcome)
      requires Valid() && id < |nodes| && n <= a.Length
      modifies a
      ensures o == Route(nodes, id, old(a[..n]), parse)
      ensures a[..] == Backing(nodes, id, old(a[..n])) + old(a[n..])
      decreases |nodes| - id, 1
    {
      ghost var args := a[..n];
      var node := nodes[id];
      assert Linked(nodes, id);
      ghost var keys := node.children.Keys;
      var skipNext := false;
      for ix := 0 to n
        invariant a[..] == old(a[..])
        invariant Scan(keys, args, 0, false) == Scan(keys, args, ix, skipNext)
      {
        if skipNext {
          skipNext := false;
          continue;
        }
        var arg := a[ix];
        if IsFlag(arg) {
          skipNext := '=' !in arg;
          continue;
        }
        if arg in node.children {
          o := DescendInto(id, a, n, ix, parse);
          return;
        }
        assert Scan(keys, args, 0, false) == Stop;
        break;
      }
      assert a[..] == args + a[n..];
      if node.fn.Nil? {
        if "help" in node.children {
          o := Execute(node.children["help"], a, n, parse);
        } else {
          o := NilHandler(id);
        }
      } else {
        var parsed := parse(id, a[..n]);
        match parsed
        case Failure(e) =>
          o := ParseFailed(id, e);
        case Success(rest) =>
          if node.fn.Help? {
            var text := Render.Help(nodes, node.fn.owner);
            o := HelpShown(id, text);
          } else {
            o := Ran(id, node.fn.id, rest);
          }
      }
    }

    /** The descent of `Execute`: `append(args[:ix], args[ix+1:]...)`, then the child's `Execute`. */
    method DescendInto(id: NodeId, a: array<string>, n: nat, ix: nat, parse: Parser) returns (o: Outcome)
      requires Valid() && id < |nodes| && ix < n <= a.Length
      requires Scan(nodes[id].children.Keys, a[..n], 0, false) == Descend(ix)
      modifies a
      ensures o == Route(nodes, id, old(a[..n]), parse)
      ensures a[..] == Backing(nodes, id, old(a[..n])) + old(a[n..])
      decreases |nodes| - id, 0
    {
      ghost var before := a[..];
      DescendStep(nodes, id, a[..n], ix);
      var child := Child(nodes, id, a[ix]);
      RemoveInPlace(a, n, ix);
      DescendArray(nodes, id, before, n, ix, a[..]);
      o := Execute(child, a, n - 1, parse);
    }
  }
}
