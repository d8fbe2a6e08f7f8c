/**
  The help renderer of command/help.go: the text a command's `help` leaf
  prints. The functions below say what each piece of text is; the methods
  at the end build it the way the source does, with loops over maps whose
  iteration order is left open, and are proved to produce exactly that text.
 */
module Render {
  import opened Wrappers
  import opened Text
  import opened Tree

  /** `--name=<type>`, the rendered signature of a flag. */
  function Signature(name: string, f: Flag): string
  {
    "--" + name + "=" + TypeName(f.default)
  }

  /** The signatures of every flag of one set. */
  ghost function Sigs(m: map<string, Flag>): set<string>
  {
    set k | k in m :: Signature(k, m[k])
  }

  /** What follows the padded signature on a flag line, before the newline. */
  function Annotation(f: Flag): string
  {
    (if |f.description| > 0 then " " + f.description else "")
    + (if |f.aliases| > 0 then ", aliases: " + Join(f.aliases, ", ") else "")
    + (if f.optional then ", default: " + Show(f.default) else "")
  }

  /** `flag`: one line of a flag listing, the signature padded to `width`. */
  function FlagLine(width: nat, name: string, f: Flag): string
  {
    "  " + PadRight(Signature(name, f), width) + Annotation(f) + "\n"
  }

  /**
    The annotation is empty exactly when there is nothing to say; otherwise it
    opens with a space and the description when there is one, with a comma otherwise.
   */
  lemma AnnotationStart(f: Flag)
    ensures Annotation(f) == "" <==> (|f.description| == 0 && |f.aliases| == 0 && !f.optional)
    ensures |f.description| > 0 ==> Annotation(f)[..1 + |f.description|] == " " + f.description
    ensures |f.description| == 0 && Annotation(f) != "" ==> Annotation(f)[0] == ','
  {
    var d := if |f.description| > 0 then " " + f.description else "";
    var rest := (if |f.aliases| > 0 then ", aliases: " + Join(f.aliases, ", ") else "")
      + (if f.optional then ", default: " + Show(f.default) else "");
    assert Annotation(f) == d + rest;
    if |f.description| == 0 && rest != "" {
      assert rest[0] == ',';
    }
  }

  /**
    A flag line opens with two spaces and the signature, padded with spaces up
    to column `2 + width` (not at all when the signature is wider), and ends
    in a newline; `col` is the column where the annotation starts.
   */
  lemma FlagLinePadding(width: nat, name: string, f: Flag)
    ensures var line := FlagLine(width, name, f);
      var sig := Signature(name, f);
      var col := 2 + Max(|sig|, width);
      && |line| > col
      && line[..2] == "  " && line[2..2 + |sig|] == sig
      && (forall i :: 2 + |sig| <= i < col ==> line[i] == ' ')
      && line[col..] == Annotation(f) + "\n"
  {
    var sig := Signature(name, f);
    var pad := PadRight(sig, width);
    var col := 2 + Max(|sig|, width);
    var line := "  " + pad + (Annotation(f) + "\n");
    assert FlagLine(width, name, f) == line;
    assert line[2..col] == pad && line[col..] == Annotation(f) + "\n";
    assert pad[..|sig|] == sig;
  }

  /**
    After the padding comes a space and the description only when there is
    one; the alias and default parts only when there are aliases or the flag is
    optional; the line's newline directly when there is none of these.
   */
  lemma FlagLineLayout(width: nat, name: string, f: Flag)
    ensures var line := FlagLine(width, name, f);
      var col := 2 + Max(|Signature(name, f)|, width);
      && |line| > col && line[|line| - 1] == '\n'
      && (line[col] == ' ' <==> |f.description| > 0)
      && (|f.description| > 0 ==> line[col + 1..col + 1 + |f.description|] == f.description)
      && (line[col] == '\n' <==> (|f.description| == 0 && |f.aliases| == 0 && !f.optional))
  {
    FlagLinePadding(width, name, f);
    AnnotationStart(f);
    var line := FlagLine(width, name, f);
    var col := 2 + Max(|Signature(name, f)|, width);
    var a := Annotation(f);
    assert line[col..] == a + "\n";
    assert line[col] == (a + "\n")[0];
    if |f.description| > 0 {
      assert a[0] == ' ';
      assert line[col + 1..col + 1 + |f.description|] == a[1..1 + |f.description|];
    } else if a != "" {
      assert a[0] == ',';
    }
  }

  /** The flag lines of `names`, in that order, each looked up in `m`. */
  function FlagLines(width: nat, names: seq<string>, m: map<string, Flag>): string
    requires forall i :: 0 <= i < |names| ==> names[i] in m
  {
    if names == [] then ""
    else
      var last := names[|names| - 1];
      FlagLines(width, names[..|names| - 1], m) + FlagLine(width, last, m[last])
  }

  /** One more name adds its line at the end of the listing. */
  lemma FlagLinesSnoc(width: nat, names: seq<string>, m: map<string, Flag>, i: nat)
    requires forall i :: 0 <= i < |names| ==> names[i] in m
    requires i < |names|
    ensures FlagLines(width, names[..i + 1], m) == FlagLines(width, names[..i], m) + FlagLine(width, names[i], m[names[i]])
  {
    assert names[..i + 1][..i] == names[..i];
  }

  /** Each flag line ends in a newline, so some names give a non-empty listing. */
  lemma {:induction false} FlagLinesEmpty(width: nat, names: seq<string>, m: map<string, Flag>)
    requires forall i :: 0 <= i < |names| ==> names[i] in m
    ensures FlagLines(width, names, m) == "" <==> names == []
  {
    if names != [] {
      var last := names[|names| - 1];
      assert |FlagLine(width, last, m[last])| > 0;
    }
  }

  /**
    `localFlags`: empty without local flags; otherwise a blank line, the
    `Local flags:` header and one line per flag in name order, padded to the
    widest local signature.
   */
  ghost function LocalFlagsText(m: map<string, Flag>): string
  {
    if |m| == 0 then ""
    else "\n" + "Local flags:\n" + FlagLines(MaxLen(Sigs(m)), SortedKeys(m.Keys), m)
  }

  /** One line of the command listing. */
  function CommandLine(width: nat, name: string, description: string): string
  {
    "  " + PadRight(name, width) + (if |description| > 0 then " " + description else "") + "\n"
  }

  /**
    A command line: two spaces, the name padded to column `2 + width`, then
    a space and the description only when there is one, and a newline.
   */
  lemma CommandLineLayout(width: nat, name: string, description: string)
    ensures var line := CommandLine(width, name, description);
      var col := 2 + Max(|name|, width);
      && |line| > col
      && line[..2] == "  " && line[2..2 + |name|] == name
      && (forall i :: 2 + |name| <= i < col ==> line[i] == ' ')
      && line[|line| - 1] == '\n'
      && (line[col] == ' ' <==> |description| > 0)
      && (line[col] == '\n' <==> |description| == 0)
      && (|description| > 0 ==> line[col + 1..|line| - 1] == description)
  {
    var pad := PadRight(name, width);
    var col := 2 + Max(|name|, width);
    var d := if |description| > 0 then " " + description else "";
    var line := "  " + pad + (d + "\n");
    assert CommandLine(width, name, description) == line;
    assert line[2..col] == pad && line[col..] == d + "\n";
    assert pad[..|name|] == name;
    if |description| > 0 {
      assert line[col + 1..|line| - 1] == description;
    }
  }

  /** Every local flag's signature fits the listing's width, so all descriptions start in one column. */
  lemma LocalColumnsAlign(m: map<string, Flag>, k: string)
    requires k in m
    ensures |Signature(k, m[k])| <= MaxLen(Sigs(m))
    ensures 2 + Max(|Signature(k, m[k])|, MaxLen(Sigs(m))) == 2 + MaxLen(Sigs(m))
  {
    assert Signature(k, m[k]) in Sigs(m);
  }

  function CommandLines(nodes: seq<Node>, width: nat, names: seq<string>, children: map<string, NodeId>): string
    requires forall i :: 0 <= i < |names| ==> names[i] in children && children[names[i]] < |nodes|
  {
    if names == [] then ""
    else
      var last := names[|names| - 1];
      CommandLines(nodes, width, names[..|names| - 1], children)
        + CommandLine(width, last, nodes[children[last]].description)
  }

  /** `commands`: every child once, `help` included, in name order, padded to the longest name. */
  ghost function CommandsText(nodes: seq<Node>, id: NodeId): string
    requires WellFormed(nodes) && id < |nodes|
  {
    var children := nodes[id].children;
    assert Linked(nodes, id);
    if |children| == 0 then ""
    else "\n" + "Commands:\n" + CommandLines(nodes, MaxLen(children.Keys), SortedKeys(children.Keys), children)
  }

  /** `globalFlag`: the definition of `name` on the nearest command, from `id` out to the root. */
  function GlobalFlag(nodes: seq<Node>, id: NodeId, name: string): Option<Flag>
    requires WellFormed(nodes) && id < |nodes|
    decreases id
  {
    if name in nodes[id].globalFlags then Some(nodes[id].globalFlags[name])
    else
      assert Linked(nodes, id);
      match nodes[id].parent
      case None => None
      case Some(p) => GlobalFlag(nodes, p, name)
  }

  /**
    The global flags in force at `id`: those of the ancestors, overridden by
    those of nearer commands (map union lets the right-hand side win).
   */
  function EffectiveGlobals(nodes: seq<Node>, id: NodeId): map<string, Flag>
    requires WellFormed(nodes) && id < |nodes|
    decreases id
  {
    assert Linked(nodes, id);
    match nodes[id].parent
    case None => nodes[id].globalFlags
    case Some(p) => EffectiveGlobals(nodes, p) + nodes[id].globalFlags
  }

  /** Looking a flag up outward from `id` is looking it up in the merged map. */
  lemma {:induction false} GlobalFlagIsEffective(nodes: seq<Node>, id: NodeId, name: string)
    requires WellFormed(nodes) && id < |nodes|
    ensures var e := EffectiveGlobals(nodes, id);
      GlobalFlag(nodes, id, name) == if name in e then Some(e[name]) else None
    decreases id
  {
    assert Linked(nodes, id);
    if name !in nodes[id].globalFlags && nodes[id].parent.Some? {
      GlobalFlagIsEffective(nodes, nodes[id].parent.value, name);
    }
  }

  /**
    `globalFlag` finds a definition exactly when some command from `id` to
    the root defines `name`; the one it finds belongs to such a command `a`,
    and no command strictly between `id` and `a` defines `name`.
   */
  lemma {:induction false} GlobalFlagNearest(nodes: seq<Node>, id: NodeId, name: string)
    requires WellFormed(nodes) && id < |nodes|
    ensures GlobalFlag(nodes, id, name).None? ==>
      forall a :: 0 <= a < |nodes| && IsAncestorOrSelf(nodes, a, id) ==> name !in nodes[a].globalFlags
    ensures GlobalFlag(nodes, id, name).Some? ==>
      exists a :: 0 <= a < |nodes| && IsAncestorOrSelf(nodes, a, id)
        && name in nodes[a].globalFlags && GlobalFlag(nodes, id, name) == Some(nodes[a].globalFlags[name])
        && forall b :: 0 <= b < |nodes| && IsAncestorOrSelf(nodes, b, id) && b != a && IsAncestorOrSelf(nodes, a, b) ==>
             name !in nodes[b].globalFlags
    decreases id
  {
    assert Linked(nodes, id);
    if name in nodes[id].globalFlags {
      forall b | 0 <= b < |nodes| && IsAncestorOrSelf(nodes, b, id) && b != id && IsAncestorOrSelf(nodes, id, b)
        ensures false
      {
        AncestorBefore(nodes, b, id);
        AncestorBefore(nodes, id, b);
      }
    } else if nodes[id].parent.None? {
      forall a | 0 <= a < |nodes| && IsAncestorOrSelf(nodes, a, id) ensures a == id { }
    } else {
      var p := nodes[id].parent.value;
      GlobalFlagNearest(nodes, p, name);
      if GlobalFlag(nodes, id, name).Some? {
        var a :| 0 <= a < |nodes| && IsAncestorOrSelf(nodes, a, p)
          && name in nodes[a].globalFlags && GlobalFlag(nodes, p, name) == Some(nodes[a].globalFlags[name])
          && forall b :: 0 <= b < |nodes| && IsAncestorOrSelf(nodes, b, p) && b != a && IsAncestorOrSelf(nodes, a, b) ==>
               name !in nodes[b].globalFlags;
        AncestorTransitive(nodes, a, p, id);
        forall b | 0 <= b < |nodes| && IsAncestorOrSelf(nodes, b, id) && b != a && IsAncestorOrSelf(nodes, a, b)
          ensures name !in nodes[b].globalFlags
        {
          if b != id {
            assert IsAncestorOrSelf(nodes, b, p);
          }
        }
      }
    }
  }

  /** `globalFlagsMeta`'s names: this command's global names, then all its ancestors', duplicates kept. */
  ghost function MetaNames(nodes: seq<Node>, id: NodeId): seq<string>
    requires WellFormed(nodes) && id < |nodes|
    decreases id
  {
    assert Linked(nodes, id);
    var own := SortedKeys(nodes[id].globalFlags.Keys);
    match nodes[id].parent
    case None => own
    case Some(p) => own + MetaNames(nodes, p)
  }

  /**
    The level order of `globalFlagsMeta`: first this command's global names,
    each once in some order, then the same layout for its parent, and nothing
    after the root's names.
   */
  ghost predicate LevelOrder(nodes: seq<Node>, id: NodeId, names: seq<string>)
    requires WellFormed(nodes) && id < |nodes|
    decreases id
  {
    assert Linked(nodes, id);
    var k := |nodes[id].globalFlags.Keys|;
    && k <= |names|
    && multiset(names[..k]) == multiset(nodes[id].globalFlags.Keys)
    && match nodes[id].parent
       case None => |names| == k
       case Some(p) => LevelOrder(nodes, p, names[k..])
  }

  /** `MetaNames` is laid out level by level, nearest command first. */
  lemma {:induction false} MetaNamesLevelOrder(nodes: seq<Node>, id: NodeId)
    requires WellFormed(nodes) && id < |nodes|
    ensures LevelOrder(nodes, id, MetaNames(nodes, id))
    decreases id
  {
    assert Linked(nodes, id);
    var own := SortedKeys(nodes[id].globalFlags.Keys);
    assert |own| == |nodes[id].globalFlags.Keys| by {
      assert |multiset(own)| == |multiset(nodes[id].globalFlags.Keys)|;
    }
    match nodes[id].parent
    case None =>
      assert own[..|own|] == own;
    case Some(p) =>
      MetaNamesLevelOrder(nodes, p);
      var m := MetaNames(nodes, id);
      assert m == own + MetaNames(nodes, p);
      assert m[..|own|] == own;
      assert m[|own|..] == MetaNames(nodes, p);
  }

  /** The global signatures of `id` and of every ancestor. */
  ghost function ChainSigs(nodes: seq<Node>, id: NodeId): set<string>
    requires WellFormed(nodes) && id < |nodes|
    decreases id
  {
    assert Linked(nodes, id);
    match nodes[id].parent
    case None => Sigs(nodes[id].globalFlags)
    case Some(p) => Sigs(nodes[id].globalFlags) + ChainSigs(nodes, p)
  }

  /** The collected names are exactly the names of the global flags in force. */
  lemma {:induction false} MetaNamesAreEffective(nodes: seq<Node>, id: NodeId)
    requires WellFormed(nodes) && id < |nodes|
    ensures forall x :: x in MetaNames(nodes, id) <==> x in EffectiveGlobals(nodes, id)
    decreases id
  {
    assert Linked(nodes, id);
    if nodes[id].parent.Some? {
      MetaNamesAreEffective(nodes, nodes[id].parent.value);
    }
  }

  /**
    The definition `globalFlag` finds fits the width computed over the whole
    chain, so the global listing is aligned whichever level defines a name.
   */
  lemma {:induction false} GlobalColumnsAlign(nodes: seq<Node>, id: NodeId, name: string)
    requires WellFormed(nodes) && id < |nodes| && name in EffectiveGlobals(nodes, id)
    ensures |Signature(name, EffectiveGlobals(nodes, id)[name])| <= MaxLen(ChainSigs(nodes, id))
    decreases id
  {
    assert Linked(nodes, id);
    var own := nodes[id].globalFlags;
    if name in own {
      assert Signature(name, own[name]) in Sigs(own);
      assert Signature(name, own[name]) in ChainSigs(nodes, id);
    } else {
      var p := nodes[id].parent.value;
      GlobalColumnsAlign(nodes, p, name);
      var t :| t in ChainSigs(nodes, p) && |t| == MaxLen(ChainSigs(nodes, p));
      assert t in ChainSigs(nodes, id);
    }
  }

  /**
    A name defined both here and further out is collected more than once
    (the source does not remove duplicates, so the listing repeats it).
   */
  lemma ShadowedNameRepeats(nodes: seq<Node>, id: NodeId, p: NodeId, x: string)
    requires WellFormed(nodes) && id < |nodes| && x in nodes[id].globalFlags
    requires nodes[id].parent == Some(p) && p < id && x in EffectiveGlobals(nodes, p)
    ensures multiset(MetaNames(nodes, id))[x] >= 2
  {
    assert Linked(nodes, id);
    var own := SortedKeys(nodes[id].globalFlags.Keys);
    MetaNamesAreEffective(nodes, p);
    assert MetaNames(nodes, id) == own + MetaNames(nodes, p);
    assert x in multiset(own) && x in multiset(MetaNames(nodes, p));
  }

  /**
    `globalFlags`: empty when no command from `id` to the root has global
    flags; otherwise a blank line, `Global flags:` and one line per collected
    name in order, each rendered from the nearest definition and padded to the
    widest global signature anywhere on the chain.
   */
  ghost function GlobalFlagsText(nodes: seq<Node>, id: NodeId): string
    requires WellFormed(nodes) && id < |nodes|
  {
    var names := Sort(MetaNames(nodes, id));
    var e := EffectiveGlobals(nodes, id);
    MetaNamesAreEffective(nodes, id);
    assert forall i :: 0 <= i < |names| ==> names[i] in e by {
      forall i | 0 <= i < |names| ensures names[i] in e {
        assert names[i] in multiset(names);
      }
    }
    var body := FlagLines(MaxLen(ChainSigs(nodes, id)), names, e);
    if |body| > 0 then "\nGlobal flags:\n" + body else ""
  }

  lemma GlobalFlagsEmpty(nodes: seq<Node>, id: NodeId)
    requires WellFormed(nodes) && id < |nodes|
    ensures GlobalFlagsText(nodes, id) == "" <==> EffectiveGlobals(nodes, id) == map[]
  {
    var names := Sort(MetaNames(nodes, id));
    var e := EffectiveGlobals(nodes, id);
    MetaNamesAreEffective(nodes, id);
    assert forall i :: 0 <= i < |names| ==> names[i] in e by {
      forall i | 0 <= i < |names| ensures names[i] in e {
        assert names[i] in multiset(names);
      }
    }
    FlagLinesEmpty(MaxLen(ChainSigs(nodes, id)), names, e);
    if e != map[] {
      var x :| x in e;
      assert x in multiset(MetaNames(nodes, id));
      assert x in multiset(names);
    }
  }

  /** `usage`: the command names from the root down to `id`, separated by spaces. */
  function UsageLine(nodes: seq<Node>, id: NodeId): string
    requires WellFormed(nodes) && id < |nodes|
    decreases id
  {
    assert Linked(nodes, id);
    match nodes[id].parent
    case None => nodes[id].name
    case Some(p) => UsageLine(nodes, p) + " " + nodes[id].name
  }

  /** The names on the path from the root to `id`. */
  function PathNames(nodes: seq<Node>, id: NodeId): (r: seq<string>)
    requires WellFormed(nodes) && id < |nodes|
    decreases id
  {
    assert Linked(nodes, id);
    match nodes[id].parent
    case None => [nodes[id].name]
    case Some(p) => PathNames(nodes, p) + [nodes[id].name]
  }

  lemma {:induction false} JoinSnoc(parts: seq<string>, x: string, sep: string)
    requires parts != []
    ensures Join(parts + [x], sep) == Join(parts, sep) + sep + x
  {
    if |parts| > 1 {
      assert (parts + [x])[1..] == parts[1..] + [x];
      JoinSnoc(parts[1..], x, sep);
    }
  }

  /** The usage line is the root-to-`id` path, one name per level, joined by single spaces. */
  lemma {:induction false} UsageIsPath(nodes: seq<Node>, id: NodeId)
    requires WellFormed(nodes) && id < |nodes|
    ensures |PathNames(nodes, id)| == Depth(nodes, id) + 1
    ensures PathNames(nodes, id)[Depth(nodes, id)] == nodes[id].name
    ensures UsageLine(nodes, id) == Join(PathNames(nodes, id), " ")
    decreases id
  {
    assert Linked(nodes, id);
    if nodes[id].parent.Some? {
      var p := nodes[id].parent.value;
      UsageIsPath(nodes, p);
      JoinSnoc(PathNames(nodes, p), nodes[id].name, " ");
    }
  }

  /** The buffer the help closure of command `id` prints. */
  ghost function HelpText(nodes: seq<Node>, id: NodeId): string
    requires WellFormed(nodes) && id < |nodes|
  {
    ("Usage: " + UsageLine(nodes, id))
    + ((if |nodes[id].localFlags| > 0 then " [flags]\n" else "\n") + Sections(nodes, id))
  }

  /** Everything after the usage line: the description block and the three listings. */
  ghost function Sections(nodes: seq<Node>, id: NodeId): string
    requires WellFormed(nodes) && id < |nodes|
  {
    var n := nodes[id];
    (if |n.description| > 0 then "\n" + n.description + "\n" else "")
    + LocalFlagsText(n.localFlags) + GlobalFlagsText(nodes, id) + CommandsText(nodes, id)
  }

  /**
    The help text opens with `Usage: ` and the root-to-`id` path, followed by
    ` [flags]` exactly when the command has local flags, or else the end of the line.
   */
  lemma HelpOpensWithUsage(nodes: seq<Node>, id: NodeId)
    requires WellFormed(nodes) && id < |nodes|
    ensures var u := "Usage: " + Join(PathNames(nodes, id), " ");
      var h := HelpText(nodes, id);
      && |h| > |u| && h[..|u|] == u
      && (h[|u|] == ' ' <==> |nodes[id].localFlags| > 0)
      && (h[|u|] == '\n' <==> |nodes[id].localFlags| == 0)
  {
    UsageIsPath(nodes, id);
    var u := "Usage: " + Join(PathNames(nodes, id), " ");
    var marker := if |nodes[id].localFlags| > 0 then " [flags]\n" else "\n";
    var t := marker + Sections(nodes, id);
    assert t[0] == marker[0];
    PrefixThenNext(u, t);
  }

  lemma PrefixThenNext(u: string, t: string)
    requires |t| > 0
    ensures |u + t| > |u| && (u + t)[..|u|] == u && (u + t)[|u|] == t[0]
  {
  }

  /**
    The loop `for name, flag := range flags` shared by `localFlags` and
    `globalFlagsMeta`: every name once, in map order, and the widest signature.
   */
  method CollectFlags(m: map<string, Flag>) returns (names: seq<string>, length: nat)
    ensures multiset(names) == multiset(m.Keys)
    ensures length == MaxLen(Sigs(m))
  {
    names, length := [], 0;
    var rest := m.Keys;
    while rest != {}
      invariant rest <= m.Keys
      invariant multiset(names) + multiset(rest) == multiset(m.Keys)
      invariant forall k :: k in m && k !in rest ==> SigWidth(m, k) <= length
      invariant (rest == m.Keys && length == 0) || exists k :: k in m && k !in rest && SigWidth(m, k) == length
      decreases rest
    {
      var name :| name in rest;
      var rendered := Signature(name, m[name]);
      if |rendered| > length {
        length := |rendered|;
      }
      assert SigWidth(m, name) == |rendered|;
      MultisetRemove(rest, name);
      names := names + [name];
      rest := rest - {name};
    }
    WidestSignature(m, length);
  }

  function SigWidth(m: map<string, Flag>, k: string): nat
    requires k in m
  {
    |Signature(k, m[k])|
  }

  /** A width every signature of `m` fits in and some signature (or, for no flag, 0) reaches is MaxLen(Sigs(m)). */
  lemma WidestSignature(m: map<string, Flag>, w: nat)
    requires forall k :: k in m ==> SigWidth(m, k) <= w
    requires (m == map[] && w == 0) || exists k :: k in m && SigWidth(m, k) == w
    ensures MaxLen(Sigs(m)) == w
  {
    if m != map[] {
      var k :| k in m && SigWidth(m, k) == w;
      assert Signature(k, m[k]) in Sigs(m);
    } else {
      assert Sigs(m) == {};
    }
    forall s | s in Sigs(m) ensures |s| <= w {
      var k :| k in m && s == Signature(k, m[k]);
      assert SigWidth(m, k) <= w;
    }
    MaxLenIs(Sigs(m), w);
  }

  /** The loop `for name := range cmd.Children` of `commands`: every name once, and the longest. */
  method CollectNames(keys: set<string>) returns (names: seq<string>, length: nat)
    ensures multiset(names) == multiset(keys)
    ensures length == MaxLen(keys)
  {
    names, length := [], 0;
    var rest := keys;
    while rest != {}
      invariant rest <= keys
      invariant multiset(names) + multiset(rest) == multiset(keys)
      invariant forall k :: k in keys && k !in rest ==> |k| <= length
      invariant (rest == keys && length == 0) || exists k :: k in keys && k !in rest && |k| == length
      decreases rest
    {
      var name :| name in rest;
      if |name| > length {
        length := |name|;
      }
      MultisetRemove(rest, name);
      names := names + [name];
      rest := rest - {name};
    }
    MaxLenIs(keys, length);
  }

  /** The loop `for _, name := range names` writing one flag line per name. */
  method WriteFlagLines(width: nat, names: seq<string>, m: map<string, Flag>) returns (lines: string)
    requires forall i :: 0 <= i < |names| ==> names[i] in m
    ensures lines == FlagLines(width, names, m)
  {
    lines := "";
    for i := 0 to |names|
      invariant lines == FlagLines(width, names[..i], m)
    {
      FlagLinesSnoc(width, names, m, i);
      lines := lines + FlagLine(width, names[i], m[names[i]]);
    }
    assert names[..|names|] == names;
  }

  /** `localFlags` of command/help.go. */
  method LocalFlags(nodes: seq<Node>, id: NodeId) returns (s: string)
    requires WellFormed(nodes) && id < |nodes|
    ensures s == LocalFlagsText(nodes[id].localFlags)
  {
    var flags := nodes[id].localFlags;
    s := "";
    if |flags| > 0 {
      var names, length := CollectFlags(flags);
      var sorted := Sort(names);
      SortedUnique(sorted, SortedKeys(flags.Keys));
      assert sorted == SortedKeys(flags.Keys);
      var lines := WriteFlagLines(length, sorted, flags);
      s := "\n" + "Local flags:\n" + lines;
    }
  }

  /** The loop `for _, name := range names` of `commands`, one line per child. */
  method WriteCommandLines(nodes: seq<Node>, width: nat, names: seq<string>, children: map<string, NodeId>)
    returns (lines: string)
    requires forall i :: 0 <= i < |names| ==> names[i] in children && children[names[i]] < |nodes|
    ensures lines == CommandLines(nodes, width, names, children)
  {
    lines := "";
    for i := 0 to |names|
      invariant lines == CommandLines(nodes, width, names[..i], children)
    {
      assert names[..i + 1][..i] == names[..i];
      var child := nodes[children[names[i]]];
      lines := lines + CommandLine(width, names[i], child.description);
    }
    assert names[..|names|] == names;
  }

  /** `commands` of command/help.go. */
  method Commands(nodes: seq<Node>, id: NodeId) returns (s: string)
    requires WellFormed(nodes) && id < |nodes|
    ensures s == CommandsText(nodes, id)
  {
    assert Linked(nodes, id);
    var children := nodes[id].children;
    s := "";
    if |children| > 0 {
      var names, length := CollectNames(children.Keys);
      var sorted := Sort(names);
      SortedUnique(sorted, SortedKeys(children.Keys));
      assert sorted == SortedKeys(children.Keys);
      var lines := WriteCommandLines(nodes, length, sorted, children);
      s := "\n" + "Commands:\n" + lines;
    }
  }

  /** `globalFlagsMeta` of command/help.go: own names and signatures, then the parent's, recursively. */
  method GlobalFlagsMeta(nodes: seq<Node>, id: NodeId) returns (names: seq<string>, length: nat)
    requires WellFormed(nodes) && id < |nodes|
    ensures multiset(names) == multiset(MetaNames(nodes, id))
    ensures LevelOrder(nodes, id, names)
    ensures length == MaxLen(ChainSigs(nodes, id))
    decreases id
  {
    assert Linked(nodes, id);
    names, length := CollectFlags(nodes[id].globalFlags);
    ghost var k := |nodes[id].globalFlags.Keys|;
    assert |names| == k by {
      assert |multiset(names)| == |multiset(nodes[id].globalFlags.Keys)|;
    }
    assert names[..k] == names;
    if nodes[id].parent.Some? {
      var p := nodes[id].parent.value;
      var parentNames, parentLength := GlobalFlagsMeta(nodes, p);
      if parentLength > length {
        length := parentLength;
      }
      ghost var own := names;
      names := names + parentNames;
      assert names[..k] == own && names[k..] == parentNames;
      MaxLenUnion(Sigs(nodes[id].globalFlags), ChainSigs(nodes, p));
    }
  }

  /** The loop of `globalFlags`: one line per name, each resolved with `globalFlag`. */
  method WriteGlobalFlagLines(nodes: seq<Node>, id: NodeId, width: nat, names: seq<string>) returns (lines: string)
    requires WellFormed(nodes) && id < |nodes|
    requires forall i :: 0 <= i < |names| ==> names[i] in EffectiveGlobals(nodes, id)
    ensures lines == FlagLines(width, names, EffectiveGlobals(nodes, id))
  {
    ghost var e := EffectiveGlobals(nodes, id);
    lines := "";
    for i := 0 to |names|
      invariant lines == FlagLines(width, names[..i], e)
    {
      assert names[..i + 1][..i] == names[..i];
      var f := GlobalFlag(nodes, id, names[i]);
      GlobalFlagIsEffective(nodes, id, names[i]);
      lines := lines + FlagLine(width, names[i], f.value);
    }
    assert names[..|names|] == names;
  }

  /** `globalFlags` of command/help.go. */
  method GlobalFlags(nodes: seq<Node>, id: NodeId) returns (s: string)
    requires WellFormed(nodes) && id < |nodes|
    ensures s == GlobalFlagsText(nodes, id)
  {
    var names, length := GlobalFlagsMeta(nodes, id);
    var sorted := Sort(names);
    SortPermutation(names, MetaNames(nodes, id));
    MetaNamesAreEffective(nodes, id);
    assert forall i :: 0 <= i < |sorted| ==> sorted[i] in EffectiveGlobals(nodes, id) by {
      forall i | 0 <= i < |sorted| ensures sorted[i] in EffectiveGlobals(nodes, id) {
        assert sorted[i] in multiset(sorted);
        assert sorted[i] in multiset(MetaNames(nodes, id));
      }
    }
    var buffer := WriteGlobalFlagLines(nodes, id, length, sorted);
    if |buffer| > 0 {
      s := "\nGlobal flags:\n" + buffer;
    } else {
      s := "";
    }
  }

  /** The loop of `help` that walks the parents: the usage line of `id`. */
  method Usage(nodes: seq<Node>, id: NodeId) returns (usage: string)
    requires WellFormed(nodes) && id < |nodes|
    ensures usage == UsageLine(nodes, id)
  {
    usage := nodes[id].name;
    var parent: Option<NodeId> := nodes[id].parent;
    assert Linked(nodes, id);
    while parent.Some?
      invariant parent.Some? ==> parent.value < |nodes| && UsageLine(nodes, id) == UsageLine(nodes, parent.value) + " " + usage
      invariant parent.None? ==> UsageLine(nodes, id) == usage
      decreases if parent.Some? then parent.value + 1 else 0
    {
      var p := parent.value;
      assert Linked(nodes, p);
      if nodes[p].parent.Some? {
        assert UsageLine(nodes, p) + " " + usage
          == UsageLine(nodes, nodes[p].parent.value) + " " + (nodes[p].name + " " + usage);
      }
      usage := nodes[p].name + " " + usage;
      parent := nodes[p].parent;
    }
  }

  /**
    The closure returned by `help`: the text it prints for command `id`. It
    reads the tree and changes nothing, so two calls give the same text.
   */
  method Help(nodes: seq<Node>, id: NodeId) returns (text: string)
    requires WellFormed(nodes) && id < |nodes|
    ensures text == HelpText(nodes, id)
  {
    var usage := Usage(nodes, id);
    var marker := if |nodes[id].localFlags| > 0 then " [flags]\n" else "\n";
    var description := if |nodes[id].description| > 0 then "\n" + nodes[id].description + "\n" else "";
    var local := LocalFlags(nodes, id);
    var global := GlobalFlags(nodes, id);
    var commands := Commands(nodes, id);
    text := ("Usage: " + usage) + (marker + (description + local + global + commands));
  }
}
