# go-command, modelled in Dafny

go-command builds a tree of named commands for a command-line program and
routes an argument vector down that tree. Each command may have a handler
(`Fn`), flag sets, children, and an automatically added `help` child that
prints the command's usage text. This project models two files of the
repository and proves properties of the model:

- **command/command.go**: building the tree (`New`, `create`, `add`/`Add`)
  and routing arguments (`Execute`).
- **command/help.go**: the help renderer (`help`, `localFlags`,
  `globalFlags`, `globalFlag`, `globalFlagsMeta`, `commands`, `flag`).

Files:

- `wrappers.dfy`: `Option` and `Result`.
- `text.dfy`: Go's string order, with `sort.Strings` as an insertion sort proved
  to produce the unique ordered permutation. It also holds `%-*s` padding,
  `strings.Join`, and the widest string of a set.
- `tree.dfy`: the `Command` record as `Node`, kept in an arena (`seq<Node>`)
  where a pointer becomes an index. `WellFormed` is the invariant that links
  each parent and child in both directions and shares the injector. Every
  child is stored after its parent, which makes every walk up or down the tree
  terminate.
- `render.dfy`: what each section of the help text is, as functions. The
  loops of help.go are methods proved to produce exactly that text, whatever
  order the Go maps yield their keys in.
- `router.dfy`: the scan of `Execute` (`Scan`) and the descent it drives
  (`Resolve`). `Route` is the outcome of the whole call. The lemmas
  characterise the scan exactly and say where a call ends.
- `command.dfy`: the class `CommandTree`, whose methods change the arena in
  place as the Go methods change their records. `Execute` works on an
  `array<string>`, the slice's backing array, and is proved to compute `Route`.

Routing follows command.go, with a single `FlagSet` per command. Its `Parse`
is a function parameter (`Parser`). Rendering follows help.go, which reads
two flag sets per command, so every `Node` carries both `localFlags` and
`globalFlags`.

Two behaviours of the code may surprise a reader; the model follows the code
in both.

- One might expect the global flag listing to name each flag once, with the
  nearest definition winning. The code does use the nearest definition for
  every line (`globalFlag`). But `globalFlagsMeta` concatenates the names of
  every level without removing duplicates (help.go:84), so a name defined at
  two levels is listed twice, both times with the nearest line.
  `Render.ShadowedNameRepeats` proves the repetition.
- The skip rule of `Execute` does not know which flags take a value. Any
  token after a flag written without `=` is skipped, so in
  `tool --verbose build --out=x.bin file.c` the word `build` is taken as the
  value of `--verbose`, and `tool` itself handles the call.
  `Router.FlagSwallowsSubcommand` states this case.

## Model

| member | source | states |
|---|---|---|
| Text.Join | command/help.go:153 | `strings.Join`: the parts with the separator between consecutive ones, `""` for none |
| Tree.TypeName | command/help.go:148 | `%T` of a flag default: the Go type name of the tagged value: `bool`, `string`, `int`, or the name an `Other` value carries |
| Tree.Show | command/help.go:156 | `%v` of a flag default: `true`/`false`, the string itself, the integer in decimal with a leading `-` when negative, or the rendering an `Other` value carries |
| Text.Sort | command/help.go:46 | `sort.Strings`: the result is ordered and is a permutation of its input |
| Text.SortedUnique | command/help.go:106 | two ordered sequences with the same elements are equal, so the sorted listing does not depend on map iteration order |
| Text.SortedKeys | command/help.go:98-106 | the sorted key list of a map holds each key exactly once, in order, and nothing else |
| Text.PadRight | command/help.go:148 | `%-*s` left-justifies to the width, never truncates: the length is the larger of the two, the text comes first and spaces follow |
| Text.MaxLen | command/help.go:97-103 | the running maximum is a bound for every string of the set, is reached by one of them, and is 0 for none |
| Text.MaxLenUnion | command/help.go:80-83 | the widest of a union is the larger of the two widths, as `globalFlagsMeta` combines its own width with its parent's |
| Render.Signature | command/help.go:148 | the inner `Sprintf("--%s=%T")`: two dashes, the name, `=` and the default's type name |
| Render.Annotation | command/help.go:149-157 | what `flag` writes after the padded signature: `" "` and the description if any, `", aliases: "` and the joined aliases if any, `", default: "` and the default if optional |
| Render.FlagLine | command/help.go:146-160 | `flag`: two spaces, the signature left-justified to the width, the annotation, a newline |
| Render.AnnotationStart | command/help.go:149-157 | the part after the signature is empty exactly when there is no description, no alias and the flag is not optional; it opens with `" "` and the description, or else with a comma |
| Render.FlagLinePadding | command/help.go:148 | a flag line opens with two spaces and `--name=<type>`, padded with spaces to column `2 + width`, and the annotation follows |
| Render.FlagLineLayout | command/help.go:146-160 | after the padding: a space iff there is a description, followed by the description; a newline directly iff there is no description, no alias, no default shown; the line always ends in a newline |
| Render.FlagLinesEmpty | command/help.go:47-49 | a listing is empty exactly when it has no names |
| Render.CommandLineLayout | command/help.go:133-140 | a command line is two spaces, the name padded to the width, a space and the description only if it is non-empty, then a newline |
| Render.LocalColumnsAlign | command/help.go:97-109 | every local signature fits the computed width, so all local descriptions start in the same column |
| Render.GlobalFlag | command/help.go:58-68 | `globalFlag`: the command's own global definition of the name, else its parent's answer, else none at the root |
| Render.GlobalFlagIsEffective | command/help.go:58-68 | `globalFlag` finds the same definition as the merged map of the chain, where a nearer command overrides |
| Render.GlobalFlagNearest | command/help.go:58-68 | `globalFlag` returns nil iff no command from self to the root defines the name; otherwise it returns the definition of a defining command with no defining command strictly between |
| Render.MetaNamesAreEffective | command/help.go:70-88 | the collected names are exactly the global names in force on the chain |
| Render.ShadowedNameRepeats | command/help.go:84 | a name defined here and further out is collected at least twice, since the concatenation keeps duplicates |
| Render.GlobalColumnsAlign | command/help.go:47-49 | the signature of the definition `globalFlag` finds fits the width taken over the whole chain, so global lines align whichever level defines a name |
| Render.GlobalFlagsEmpty | command/help.go:51-55 | the global section is empty iff no command on the chain has global flags |
| Render.UsageIsPath | command/help.go:16-19 | the usage line is the names from the root to the command, one per level, joined by single spaces |
| Render.HelpOpensWithUsage | command/help.go:16-26 | the help text opens with `Usage: ` and that path, followed by ` [flags]` iff there are local flags, or else the end of the line |
| Render.CollectFlags | command/help.go:97-105 | the loop over a flag map yields every name once (as a multiset) and the width of the widest signature |
| Render.CollectNames | command/help.go:123-130 | the loop over the children yields every name once and the longest name's length |
| Render.WriteFlagLines | command/help.go:108-110 | the loop writes exactly the flag lines of the names, in order |
| Render.LocalFlags | command/help.go:90-114 | `localFlags` is `""` with no local flag, else a blank line, `Local flags:`, and one line per flag in name order, padded to the widest local signature |
| Render.WriteCommandLines | command/help.go:133-140 | the loop writes exactly one command line per name, in order |
| Render.Commands | command/help.go:116-144 | `commands` is `""` with no child, else every child (`help` included) once, in name order, padded to the longest name |
| Render.GlobalFlagsMeta | command/help.go:70-88 | the names of this command and of every ancestor, duplicates kept, laid out level by level (`LevelOrder`): this command's global names first, each once in map order, then its parent's output; and the widest signature over the chain |
| Render.MetaNamesLevelOrder | command/help.go:76-84 | the specification `MetaNames` itself has that level order, nearest command first and the root's names last |
| Render.WriteGlobalFlagLines | command/help.go:47-49 | each collected name is written with the definition `globalFlag` resolves, which always exists |
| Render.GlobalFlags | command/help.go:42-56 | `globalFlags` is the sorted collected names rendered from their nearest definitions, under `Global flags:`, or `""` |
| Render.Usage | command/help.go:16-19 | the parent walk builds the root-to-command path |
| Render.Help | command/help.go:12-39 | the help closure's buffer is exactly `HelpText`: the usage line, the description block only if non-empty, then the local, global and command sections; it reads the tree only, so it is the same every time |
| Router.IsFlag | command/command.go:80 | `strings.HasPrefix(arg, "-")`: a non-empty token that starts with a dash |
| Router.TakesValue | command/command.go:83 | a flag token without `=`, whose next token the scan skips |
| Router.Scan | command/command.go:72-94 | the scan stops, or names an in-range index whose token is a child |
| Router.ScanFrom | command/command.go:72-94 | from any position entered with the right `skipNext`, the scan descends exactly at the first command candidate, when it names a child |
| Router.ScanFindsFirstCommand | command/command.go:72-94 | `Execute` descends at index `at` iff that token is the first one that is neither a flag nor a flag's value and it names a child; it stops iff the first such token, if any, names no child |
| Router.ValueIsNeverDescended | command/command.go:74-84 | the token after a flag without `=` is skipped: it is never matched as a subcommand |
| Router.FlagSwallowsSubcommand | command/command.go:74-93 | `tool --verbose build --out=x.bin file.c` stops at the root, because `build` is skipped as the value of `--verbose`; `tool build --verbose …` descends into `build` |
| Router.ValueInFlagSkipsNothing | command/command.go:80-90 | a flag containing `=` causes no skip: a child name right after it is descended into |
| Router.ScanEmpty | command/command.go:88-93 | a command without children never descends |
| Router.Backing | command/command.go:89 | the first `|args|` entries of the backing array after the call: the final command's arguments, then the last entry each in-place removal left behind, deepest level first |
| Router.Without | command/command.go:89 | removing token `ix` keeps the others in order, one shorter |
| Router.RemoveInPlace | command/command.go:89 | `append(args[:ix], args[ix+1:]...)` shifts the tail down in the backing array: the whole array becomes the slice without entry `ix`, then the old entries from `n - 1` on, so the last old slice entry stays where it was |
| Router.DescendArray | command/command.go:88-90 | one descent on the whole backing array: what the child leaves there after the in-place removal is what the parent leaves, and both resolve to the same target |
| Router.Resolve | command/command.go:86-104 | the command that ends up handling a call and the arguments it gets: descend into the child the scan finds with its token removed, else defer to `help` when `Fn` is nil, else stop here |
| Router.Handle | command/command.go:96-104 | the target's step: the outcome is at the target; it is `NilHandler` exactly when `Fn` is nil, a parse failure exactly when `Parse` fails on a non-nil `Fn`, a run of the command's own `Custom` handler on the parse residue, or its help closure's text |
| Router.Route | command/command.go:70-105 | the outcome of `Execute`: `Handle` of `Resolve`, at a command below or equal to the start, and `NilHandler` only where that command has no `help` child |
| Router.ResolveReaches | command/command.go:86-104 | a call ends at a descendant-or-self with a sub-multiset of the arguments, at most one fewer per level descended, at a command with a handler or with no help child; argument lists are unchanged when it ends where it started |
| Router.DescentBypassesHandler | command/command.go:88-90 | when the first candidate names a child, the call is the child's on the arguments with exactly that token removed; the command's own handler is not used |
| Router.StopHandlesAllArguments | command/command.go:92-101 | when the first candidate names no child, the command handles the full, unmodified arguments: a parse error is returned without running the handler, otherwise the handler gets the parse residue |
| Router.NilDefersToHelp | command/command.go:102-104 | a command with a nil `Fn` behaves exactly as its `help` child on the same arguments |
| Router.HelpLeafRoute | command/command.go:42-50 | a help leaf, with no children and its parent's renderer as handler, shows the parent's help text once its arguments parse |
| Router.HelpIgnoresArguments | command/help.go:13 | a command without children whose handler is a help closure ignores its arguments: any two lists that parse give the same help text |
| Router.HelpHandlerIgnoresArguments | command/help.go:13 | at any command whose `Fn` is a help closure, children or not, the handler step gives the owner's help text for every argument list that parses |
| Router.DispatchableNeverNil | command/command.go:103 | in a tree where every command has a handler or a help child, `Execute` never dereferences a missing `help` child |
| Command.CreatedWellFormed | command/command.go:33-53 | a freshly created command and its help leaf keep the tree well formed |
| Command.AttachedWellFormed | command/command.go:64-67 | attaching a child under an unused name keeps every parent and child link consistent |
| Command.AttachedFacts | command/command.go:59-68 | after `add`: the child is stored under exactly `name`, has the caller as parent, shares its injector, and has no handler; with `makeHelp` its only child is a help leaf without children whose handler is the child's renderer; every other command and child entry is unchanged |
| Command.AttachedUsage | command/command.go:64-66 | a new child's usage line is its parent's followed by a space and its name |
| Command.AttachedDispatchable | command/command.go:55-57 | `Add` keeps every command able to dispatch: the new command defers to its help leaf |
| Command.CommandTree.New | command/command.go:29-31 | `New` makes a root with a help leaf and an injector different from every existing command's (`inject.NewInjector`) |
| Command.CommandTree.Create | command/command.go:33-53 | `create` appends the command and, with `makeHelp`, a help leaf whose handler is the command's renderer; the inner `add` cannot fail, so the panic is unreachable |
| Command.CommandTree.AddNode | command/command.go:59-68 | a name already among the children is an error that changes nothing; otherwise the child is created and attached |
| Command.CommandTree.Add | command/command.go:55-57 | `Add` is `add` with a help leaf, and it keeps the tree dispatchable |
| Command.CommandTree.SetFn | command/command.go:23 | assigning `Fn` changes that command's handler only; any handler is accepted, including another command's help closure |
| Command.CommandTree.DefineFlag | command/command.go:20 | registering a flag under a name already in the set is rejected and changes nothing; otherwise that set maps the name to the flag |
| Command.CommandTree.Execute | command/command.go:70-105 | `Execute` produces `Route` and terminates, since every recursive call goes to a child, which is stored later; afterwards the backing array is exactly `Backing` (the final command's arguments, then the entries the in-place removals left behind) followed by its old entries past the slice |
| Command.CommandTree.DescendInto | command/command.go:88-90 | the descent branch of `Execute`: removes the child's token in place and recurses into the child, with the same outcome and array contents as `Execute` promises at the parent |

## Left out

- `fmt.Println` at command/help.go:37: the model produces the buffer's
  string. Printing it, and the newline `Println` adds, are I/O.
- command/format.go prints to standard output and standard error. It is I/O and
  is not part of this model.
- example/main.go and main.go are host programs (`os.Args`, `os.Exit`, flag
  bindings). They are not part of this model.
- The older `help()` at command/command.go:107-186 is not modelled. It cannot
  be compiled together with the one in command/help.go, which is the one
  modelled.
- `flags.Set.Parse` belongs to an external library. It is the `Parser`
  parameter, applied to the command and its arguments. The parse itself,
  reading `localFlags`/`globalFlags`, is left open.
- `Command.CommandTree.DefineFlag`: flag registration lives in the same
  library. The model rejects a duplicate name in one set, but not with the
  library's error value.
- `inject.Injector` is an opaque value. `New` numbers the injectors it hands
  out; nothing reads them.
- A host handler (`Custom`) is not run. The outcome records which handler
  would be called and with which arguments. The error it returns is not modelled.
- The help closure always returns nil. The outcome `HelpShown` carries its text
  instead.
- `%T` and `%v` of a flag default come from Go reflection. They are `TypeName`
  and `Show` over a small tagged value type.
- Go measures string lengths in bytes; the model counts characters. Widths
  agree for ASCII names only.
- The order in which Go ranges over a map is unspecified. The methods pick
  keys in an arbitrary order (`:|`), and the specification functions do not
  depend on it.
- `Command.CommandTree.Execute`: `FlagSet.Parse` and a host handler get slices
  over the same backing array in Go. The model assumes they do not write to it
  (`Parser` is a pure function and a `Custom` handler is not run), so the array
  contents it states are those the removals leave.
- `Tree.WellFormed` holds for trees built through `New`, `Add`, assignment of
  `Fn` and flag registration only. Direct writes to the exported `Children` and
  `Parent` fields are not modelled: `cmd.Children["help"] = cmd` with a nil
  `Fn` makes command/command.go:103 recurse forever, and a `Parent` cycle does
  the same to `globalFlag`.
- Go panics when `Fn` is nil and there is no `help` child, because it
  dereferences a nil pointer. The model returns the outcome `NilHandler`.
- Parsing first a command's ancestors' flags and then its local flags, with
  aggregated errors, is not implemented by any of these files. `Execute` parses one flag set and returns its first error.
