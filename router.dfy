/**
  Argument routing of `Execute` in command/command.go, stated on values.

  `Execute` scans its arguments once. A token that starts with `-` is a flag;
  one without `=` also claims the next token as its value, which is skipped.
  The first token that is neither is a command candidate: if it names a
  child, that token is removed and the child executes the rest; otherwise the
  scan stops and the command itself handles every argument. A command without
  a handler hands the same arguments to its `help` child.

  `Scan` is that loop, `Resolve` the descent it drives, and `Route` the whole
  outcome; the method `Command.CommandTree.Execute` is proved to compute `Route`.
 */
module Router {
  import opened Wrappers
  import opened Tree
  import Render

  /** `strings.HasPrefix(arg, "-")`. */
  predicate IsFlag(t: string)
  {
    |t| > 0 && t[0] == '-'
  }

  /** A flag written without `=`: its value is the next token. */
  predicate TakesValue(t: string)
  {
    IsFlag(t) && '=' !in t
  }

  /** Where the scan ends: at the index of the child to descend into, or without one. */
  datatype Step = Descend(at: nat) | Stop

  /** The loop of `Execute` from index `i` with the current `skipNext`. */
  function Scan(children: set<string>, args: seq<string>, i: nat, skip: bool): (r: Step)
    requires i <= |args|
    ensures r.Descend? ==> i <= r.at < |args| && args[r.at] in children
    decreases |args| - i
  {
    if i == |args| then Stop
    else if skip then Scan(children, args, i + 1, false)
    else if IsFlag(args[i]) then Scan(children, args, i + 1, '=' !in args[i])
    else if args[i] in children then Descend(i)
    else Stop
  }

  /**
    Token `j` is the value of a flag: the token before it is a flag without
    `=` that is not itself a value.
   */
  predicate IsValueSlot(args: seq<string>, j: nat)
    requires j <= |args|
    decreases j
  {
    j > 0 && !IsValueSlot(args, j - 1) && TakesValue(args[j - 1])
  }

  /** Token `j` is a command candidate: neither a flag nor a flag's value. */
  predicate IsCommandSlot(args: seq<string>, j: nat)
  {
    j < |args| && !IsValueSlot(args, j) && !IsFlag(args[j])
  }

  /** Token `at` is the first command candidate at or after index `i`. */
  predicate FirstCommandFrom(args: seq<string>, i: nat, at: nat)
  {
    i <= at && IsCommandSlot(args, at) && forall k :: i <= k < at ==> !IsCommandSlot(args, k)
  }

  /** The scan from `i`, entered with the right `skipNext`, descends exactly at the first candidate when it names a child. */
  lemma {:induction false} ScanFrom(children: set<string>, args: seq<string>, i: nat, skip: bool, at: nat)
    requires i <= |args| && skip == IsValueSlot(args, i)
    ensures Scan(children, args, i, skip) == Descend(at) <==> FirstCommandFrom(args, i, at) && args[at] in children
    decreases |args| - i
  {
    if i < |args| {
      if skip || IsFlag(args[i]) {
        assert !IsCommandSlot(args, i);
        ScanFrom(children, args, i + 1, '=' !in args[i] && !skip, at);
        if FirstCommandFrom(args, i, at) {
          assert at != i;
        }
      } else if args[i] in children {
        if at > i {
          assert IsCommandSlot(args, i);
        }
      } else {
        if FirstCommandFrom(args, i, at) && at != i {
          assert IsCommandSlot(args, i);
        }
      }
    }
  }

  /**
    `Execute` descends at index `at` if and only if token `at` is the first
    command candidate of the arguments and it names a child; it stops
    without descending if and only if the first candidate, if any, names no child.
   */
  lemma ScanFindsFirstCommand(children: set<string>, args: seq<string>)
    ensures forall at: nat :: Scan(children, args, 0, false) == Descend(at) <==>
      FirstCommandFrom(args, 0, at) && args[at] in children
    ensures Scan(children, args, 0, false) == Stop <==>
      forall at: nat :: FirstCommandFrom(args, 0, at) ==> args[at] !in children
  {
    forall at: nat ensures Scan(children, args, 0, false) == Descend(at) <==>
      FirstCommandFrom(args, 0, at) && args[at] in children
    {
      ScanFrom(children, args, 0, false, at);
    }
  }

  /**
    The skip rule: the token right after a flag without `=` (that is not
    itself a value) is never taken as a command, whatever it is.
   */
  lemma ValueIsNeverDescended(children: set<string>, args: seq<string>, j: nat)
    requires j + 1 < |args| && TakesValue(args[j]) && !IsValueSlot(args, j)
    ensures Scan(children, args, 0, false) != Descend(j + 1)
  {
    ScanFindsFirstCommand(children, args);
    assert IsValueSlot(args, j + 1);
  }

  /**
    A flag written with `=` claims no value: a child name right after it,
    with no candidate before, is descended into.
   */
  lemma ValueInFlagSkipsNothing(children: set<string>, args: seq<string>, j: nat)
    requires j + 1 < |args| && IsFlag(args[j]) && '=' in args[j]
    requires !IsFlag(args[j + 1]) && args[j + 1] in children
    requires forall k :: 0 <= k <= j ==> !IsCommandSlot(args, k)
    ensures Scan(children, args, 0, false) == Descend(j + 1)
  {
    ScanFindsFirstCommand(children, args);
    assert !IsValueSlot(args, j + 1);
    assert FirstCommandFrom(args, 0, j + 1);
  }

  /**
    The skip rule applies to subcommand names too. In
    `tool --verbose build --out=x.bin file.c`, `build` is taken as the value
    of `--verbose`, so the command itself handles the call; with `build`
    first, the call descends into `build`.
   */
  lemma FlagSwallowsSubcommand()
    ensures Scan({"build", "help"}, ["--verbose", "build", "--out=x.bin", "file.c"], 0, false) == Stop
    ensures Scan({"build", "help"}, ["build", "--verbose", "--out=x.bin", "file.c"], 0, false) == Descend(0)
  {
    var args := ["--verbose", "build", "--out=x.bin", "file.c"];
    assert IsFlag(args[0]) && '=' !in args[0];
    assert !IsFlag(args[3]) && args[3] !in {"build", "help"};
  }

  /** A command without children never descends. */
  lemma {:induction false} ScanEmpty(args: seq<string>, i: nat, skip: bool)
    requires i <= |args|
    ensures Scan({}, args, i, skip) == Stop
    decreases |args| - i
  {
    if i < |args| {
      ScanEmpty(args, i + 1, if skip then false else '=' !in args[i]);
    }
  }

  /** `append(args[:ix], args[ix+1:]...)`: the arguments without token `ix`. */
  function Without(args: seq<string>, ix: nat): (r: seq<string>)
    requires ix < |args|
    ensures |r| == |args| - 1
    ensures forall k :: 0 <= k < ix ==> r[k] == args[k]
    ensures forall k :: ix <= k < |r| ==> r[k] == args[k + 1]
    ensures multiset(r) == multiset(args) - multiset{args[ix]}
  {
    assert args == args[..ix] + [args[ix]] + args[ix + 1..];
    args[..ix] + args[ix + 1..]
  }

  /**
    The same `append` on the slice's backing array: the tail moves down by
    one in place, and the last old element stays where it was.
   */
  method RemoveInPlace(a: array<string>, n: nat, ix: nat)
    requires ix < n <= a.Length
    modifies a
    ensures a[..] == Without(old(a[..n]), ix) + old(a[n - 1..])
  {
    ghost var w := Without(a[..n], ix) + a[n - 1..];
    forall k | ix <= k < n - 1 {
      a[k] := a[k + 1];
    }
    assert forall k :: 0 <= k < a.Length ==> a[k] == w[k];
  }

  /** The command that ends up handling the call, and the arguments it is given. */
  datatype Target = Target(node: NodeId, args: seq<string>)

  /** The descent of `Execute`: into children while the scan finds one, then to `help` when there is no handler. */
  function Resolve(nodes: seq<Node>, id: NodeId, args: seq<string>): (t: Target)
    requires WellFormed(nodes) && id < |nodes|
    ensures t.node < |nodes|
    decreases |nodes| - id
  {
    assert Linked(nodes, id);
    var n := nodes[id];
    match Scan(n.children.Keys, args, 0, false)
    case Descend(at) => Resolve(nodes, Child(nodes, id, args[at]), Without(args, at))
    case Stop =>
      if n.fn.Nil? && "help" in n.children then Resolve(nodes, Child(nodes, id, "help"), args)
      else Target(id, args)
  }

  /**
    The first `|args|` entries of the backing array after `Execute`: each
    descent removes its token in place and leaves that level's last entry
    where it was, so the final command's arguments are followed by one such
    entry per level descended, the deepest level first.
   */
  function Backing(nodes: seq<Node>, id: NodeId, args: seq<string>): (b: seq<string>)
    requires WellFormed(nodes) && id < |nodes|
    ensures |b| == |args|
    ensures var t := Resolve(nodes, id, args); |t.args| <= |args| && b[..|t.args|] == t.args
    decreases |nodes| - id
  {
    assert Linked(nodes, id);
    var n := nodes[id];
    match Scan(n.children.Keys, args, 0, false)
    case Descend(at) =>
      var below := Backing(nodes, Child(nodes, id, args[at]), Without(args, at));
      var t := Resolve(nodes, Child(nodes, id, args[at]), Without(args, at));
      assert (below + [args[|args| - 1]])[..|t.args|] == below[..|t.args|];
      below + [args[|args| - 1]]
    case Stop =>
      if n.fn.Nil? && "help" in n.children then Backing(nodes, Child(nodes, id, "help"), args)
      else args
  }

  /** What one call of `Execute` comes to. */
  datatype Outcome =
    | ParseFailed(node: NodeId, error: string)          // `FlagSet.Parse` failed; its error is returned
    | Ran(node: NodeId, handler: nat, args: seq<string>) // a host handler was called with the parse residue
    | HelpShown(node: NodeId, text: string)              // a help leaf printed its parent's help text
    | NilHandler(node: NodeId)                           // no handler and no `help` child: Go dereferences nil

  /** `FlagSet.Parse` of command `node`: the residue of its arguments, or an error. */
  type Parser = (NodeId, seq<string>) -> Result<seq<string>, string>

  /** What the target command does with its arguments. */
  ghost function Handle(nodes: seq<Node>, t: Target, parse: Parser): (o: Outcome)
    requires WellFormed(nodes) && t.node < |nodes|
    ensures o.node == t.node
    ensures o.NilHandler? <==> nodes[t.node].fn.Nil?
    ensures o.ParseFailed? <==> !nodes[t.node].fn.Nil? && parse(t.node, t.args).Failure?
    ensures o.Ran? ==> nodes[t.node].fn == Custom(o.handler) && parse(t.node, t.args) == Success(o.args)
    ensures o.HelpShown? ==>
      nodes[t.node].fn.Help? && nodes[t.node].fn.owner < |nodes| && o.text == Render.HelpText(nodes, nodes[t.node].fn.owner)
  {
    var n := nodes[t.node];
    assert Linked(nodes, t.node);
    if n.fn.Nil? then NilHandler(t.node)
    else
      match parse(t.node, t.args)
      case Failure(e) => ParseFailed(t.node, e)
      case Success(rest) =>
        match n.fn
        case Help(owner) => HelpShown(t.node, Render.HelpText(nodes, owner))
        case Custom(h) => Ran(t.node, h, rest)
  }

  /** One level of descent, as `Resolve` and `Backing` unfold it at `id`. */
  lemma DescendStep(nodes: seq<Node>, id: NodeId, args: seq<string>, ix: nat)
    requires WellFormed(nodes) && id < |nodes| && ix < |args|
    requires Scan(nodes[id].children.Keys, args, 0, false) == Descend(ix)
    ensures args[ix] in nodes[id].children
    ensures var c := Child(nodes, id, args[ix]);
      && Resolve(nodes, id, args) == Resolve(nodes, c, Without(args, ix))
      && Backing(nodes, id, args) == Backing(nodes, c, Without(args, ix)) + [args[|args| - 1]]
  {
    ScanFindsFirstCommand(nodes[id].children.Keys, args);
  }

  /**
    The same step on the whole backing array: once `RemoveInPlace` has turned
    `before` into `mid`, what the child leaves in the array is what `id` leaves.
   */
  lemma DescendArray(nodes: seq<Node>, id: NodeId, before: seq<string>, n: nat, ix: nat, mid: seq<string>)
    requires WellFormed(nodes) && id < |nodes| && ix < n <= |before|
    requires Scan(nodes[id].children.Keys, before[..n], 0, false) == Descend(ix)
    requires before[ix] in nodes[id].children
    requires mid == Without(before[..n], ix) + before[n - 1..]
    ensures var c := Child(nodes, id, before[ix]);
      && Resolve(nodes, id, before[..n]) == Resolve(nodes, c, mid[..n - 1])
      && Backing(nodes, id, before[..n]) + before[n..] == Backing(nodes, c, mid[..n - 1]) + mid[n - 1..]
  {
    DescendStep(nodes, id, before[..n], ix);
    assert mid[..n - 1] == Without(before[..n], ix);
    assert mid[n - 1..] == before[n - 1..] == [before[n - 1]] + before[n..];
  }

  /** The outcome of `Execute(args)` on command `id`. */
  ghost function Route(nodes: seq<Node>, id: NodeId, args: seq<string>, parse: Parser): (o: Outcome)
    requires WellFormed(nodes) && id < |nodes|
    ensures o.node < |nodes| && IsAncestorOrSelf(nodes, id, o.node)
    ensures o.NilHandler? ==> "help" !in nodes[o.node].children
  {
    ResolveReaches(nodes, id, args);
    Handle(nodes, Resolve(nodes, id, args), parse)
  }

  /**
    The call ends below `id` (or at `id`) with the arguments it started with,
    less one token per level descended, and at a command that has a handler
    or no `help` child to defer to; when it ends at `id` itself, nothing was
    removed.
   */
  lemma {:induction false} ResolveReaches(nodes: seq<Node>, id: NodeId, args: seq<string>)
    requires WellFormed(nodes) && id < |nodes|
    ensures var t := Resolve(nodes, id, args);
      && IsAncestorOrSelf(nodes, id, t.node)
      && multiset(t.args) <= multiset(args)
      && |args| - |t.args| <= Depth(nodes, t.node) - Depth(nodes, id)
      && (nodes[t.node].fn != Nil || "help" !in nodes[t.node].children)
      && (t.node == id ==> t.args == args)
    decreases |nodes| - id
  {
    assert Linked(nodes, id);
    var n := nodes[id];
    var t := Resolve(nodes, id, args);
    match Scan(n.children.Keys, args, 0, false)
    case Descend(at) =>
      var c := Child(nodes, id, args[at]);
      ChildOf(nodes, id, args[at]);
      ResolveReaches(nodes, c, Without(args, at));
      AncestorTransitive(nodes, id, c, t.node);
      AncestorBefore(nodes, c, t.node);
    case Stop =>
      if n.fn.Nil? && "help" in n.children {
        var h := Child(nodes, id, "help");
        ChildOf(nodes, id, "help");
        ResolveReaches(nodes, h, args);
        AncestorTransitive(nodes, id, h, t.node);
        AncestorBefore(nodes, h, t.node);
      }
  }

  /**
    When the first command candidate names a child, the command's own
    handler is bypassed: the call is that child's, on the arguments with
    exactly that token removed and the others, earlier flags included, in order.
   */
  lemma DescentBypassesHandler(nodes: seq<Node>, id: NodeId, args: seq<string>, parse: Parser, at: nat)
    requires WellFormed(nodes) && id < |nodes|
    requires FirstCommandFrom(args, 0, at) && args[at] in nodes[id].children
    ensures var w := args[..at] + args[at + 1..];
      Route(nodes, id, args, parse) == Route(nodes, Child(nodes, id, args[at]), w, parse)
      && Resolve(nodes, id, args) == Resolve(nodes, Child(nodes, id, args[at]), w)
  {
    ScanFindsFirstCommand(nodes[id].children.Keys, args);
  }

  /**
    When the first candidate, if any, names no child and the command has a
    handler, the command itself handles the full, unmodified arguments: a
    parse error is returned without calling the handler, and otherwise the
    handler receives the parse residue.
   */
  lemma StopHandlesAllArguments(nodes: seq<Node>, id: NodeId, args: seq<string>, parse: Parser)
    requires WellFormed(nodes) && id < |nodes| && nodes[id].fn != Nil
    requires forall at: nat :: FirstCommandFrom(args, 0, at) ==> args[at] !in nodes[id].children
    ensures Resolve(nodes, id, args) == Target(id, args)
    ensures parse(id, args).Failure? ==> Route(nodes, id, args, parse) == ParseFailed(id, parse(id, args).error)
    ensures parse(id, args).Success? && nodes[id].fn.Custom? ==>
      Route(nodes, id, args, parse) == Ran(id, nodes[id].fn.id, parse(id, args).value)
  {
    ScanFindsFirstCommand(nodes[id].children.Keys, args);
  }

  /** A command without a handler is exactly its `help` child on the same arguments. */
  lemma NilDefersToHelp(nodes: seq<Node>, id: NodeId, args: seq<string>, parse: Parser)
    requires WellFormed(nodes) && id < |nodes| && nodes[id].fn == Nil && "help" in nodes[id].children
    requires forall at: nat :: FirstCommandFrom(args, 0, at) ==> args[at] !in nodes[id].children
    ensures Route(nodes, id, args, parse) == Route(nodes, Child(nodes, id, "help"), args, parse)
  {
    ScanFindsFirstCommand(nodes[id].children.Keys, args);
  }

  /**
    A help leaf (no children, the renderer of its parent as handler) ignores
    its arguments except for parsing them: it shows the parent's help text.
   */
  lemma HelpLeafRoute(nodes: seq<Node>, h: NodeId, args: seq<string>, parse: Parser)
    requires WellFormed(nodes) && h < |nodes| && nodes[h].children == map[] && nodes[h].fn.Help?
    requires nodes[h].parent == Some(nodes[h].fn.owner)
    ensures nodes[h].fn.owner < h
    ensures Route(nodes, h, args, parse) ==
      if parse(h, args).Failure? then ParseFailed(h, parse(h, args).error)
      else HelpShown(h, Render.HelpText(nodes, nodes[h].fn.owner))
  {
    assert Linked(nodes, h);
    assert nodes[h].children.Keys == {};
    ScanEmpty(args, 0, false);
  }

  /**
    Whatever its children, a command whose handler is a help closure shows the
    same text for every argument list that parses once `Execute` stops there.
   */
  lemma HelpHandlerIgnoresArguments(nodes: seq<Node>, h: NodeId, args: seq<string>, args': seq<string>, parse: Parser)
    requires WellFormed(nodes) && h < |nodes| && nodes[h].fn.Help?
    requires parse(h, args).Success? && parse(h, args').Success?
    ensures Handle(nodes, Target(h, args), parse) == Handle(nodes, Target(h, args'), parse)
    ensures Handle(nodes, Target(h, args), parse) == HelpShown(h, Render.HelpText(nodes, nodes[h].fn.owner))
  {
  }

  /**
    A command without children whose handler is a help closure (its own help
    leaf's, or one copied from elsewhere) shows the same text for every
    argument list that parses.
   */
  lemma HelpIgnoresArguments(nodes: seq<Node>, h: NodeId, args: seq<string>, args': seq<string>, parse: Parser)
    requires WellFormed(nodes) && h < |nodes| && nodes[h].children == map[] && nodes[h].fn.Help?
    requires parse(h, args).Success? && parse(h, args').Success?
    ensures Route(nodes, h, args, parse) == Route(nodes, h, args', parse)
    ensures Route(nodes, h, args, parse).HelpShown?
  {
    assert nodes[h].children.Keys == {};
    ScanEmpty(args, 0, false);
    ScanEmpty(args', 0, false);
    assert Resolve(nodes, h, args) == Target(h, args);
    assert Resolve(nodes, h, args') == Target(h, args');
    HelpHandlerIgnoresArguments(nodes, h, args, args', parse);
  }

  /** In a tree where every command has a handler or a `help` child, `Execute` never reaches a nil handler. */
  lemma DispatchableNeverNil(nodes: seq<Node>, id: NodeId, args: seq<string>, parse: Parser)
    requires WellFormed(nodes) && Dispatchable(nodes) && id < |nodes|
    ensures !Route(nodes, id, args, parse).NilHandler?
  {
    ResolveReaches(nodes, id, args);
  }
}
