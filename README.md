# kapply help text and the generic status reader

This project models two small pieces of the cli-utils repository (the `kapply`
tool and its kstatus polling library) in Dafny, and proves properties of them.

**Help-text rewriting** (`help_text.dfy`, module `HelpText`). kapply reuses
sub-commands whose help text talks about `kubectl`. The `updateHelp` function
goes through a list of sub-command names. For each name it replaces every
`kubectl <name>` with `kapply <name>` in the command's `Short`, `Long` and
`Example` texts. kapply calls it with the names `init`, `apply`, `preview`,
`diff`, `destroy` and `status` (`KapplyNames`).

- The cobra command is the class `Command`. `UpdateHelp` is a method with a
  loop, and it updates the three text fields in place.
- Go's `strings.ReplaceAll` is the function `ReplaceAll`. It replaces the
  leftmost match first, matches never overlap, and an empty pattern matches
  before every character and at the end.
- Go's `strings.Count` is `Count`, and `strings.Contains` is `Contains`.
- `Rewrite(names, s)` is what one `updateHelp` call does to one text field.
  `Replaced(names, s)` is the total number of mentions that call replaces.

**Generic status reader** (`status_readers.dfy`, module `StatusReaders`). This
is the fallback reader for any resource kind that has no reader of its own.
`ReadStatusForObject` passes the resource to a pluggable status function.
If that function returns an error, the result is `Unknown` with the error
attached. Otherwise the result copies the computed status and message and
attaches the resource. `NewGenericStatusReader` builds the base reader around
the generic one.

- The status library's `Compute` is not part of this model. It is the
  parameter `compute`, an arbitrary function that returns either a result
  (`Ok`) or an error (`Err`).
- A resource's identifier is built from its group, kind, namespace and name.

`generic.go` applies no status heuristics of its own, such as deletion
timestamps, conditions or generations. It hands the resource to the status
function, and the model does the same.

## Model

| member | source | states |
|---|---|---|
| `HelpText.UpdateHelp` | cmd/main.go:86-93 | each of Short, Long and Example becomes `Rewrite(names, old value)`. The same transformation is applied to all three, name by name in list order. Use and the silence flags are unchanged. An empty list changes nothing. |
| `HelpText.Command.constructor` | cmd/main.go:31-39 | a command holds exactly the given use, short, long and example texts and the given silence flags. The root command at these lines is one such value: its two flags are true and its example is empty. |
| `HelpText.CountPositiveIffContains` | cmd/main.go:89-91 | strings.Count is positive exactly when strings.Contains holds, for every pattern including the empty one |
| `HelpText.ReplaceAllLength` | cmd/main.go:89-91 | ReplaceAll changes the length by Count × (len(new) − len(old)). This holds for the empty pattern too. |
| `HelpText.ReplaceAllShortens` | cmd/main.go:89-91 | when the replacement is one character shorter than the pattern, as with "kubectl "→"kapply ", the result is shorter by exactly the number of matches |
| `HelpText.CountZeroUnchanged` | cmd/main.go:89-91 | with no match counted, ReplaceAll returns the text unchanged |
| `HelpText.ReplaceAllUnchangedIff` | cmd/main.go:89-91 | when pattern and replacement differ in length, ReplaceAll leaves the text unchanged if and only if the pattern does not occur in it |
| `HelpText.ReplaceAllAddsNoMatch` | cmd/main.go:89-91 | when neither name contains 'k', replacing "kubectl <name>" by "kapply <name>" creates no new occurrence of any "kubectl <other name>" and leaves no occurrence of the replaced pattern behind. The lemma states this generally, for a pattern and replacement that each carry one marker character only at the start and differ right after it. |
| `HelpText.PatternsLeadWithK` | cmd/main.go:89 | for a name without 'k', "kubectl <name>" and "kapply <name>" each have their only 'k' in front and differ right after it. The replacement is one character shorter. |
| `HelpText.RewriteLength` | cmd/main.go:87-92 | a field's new length equals its old length minus the number of mentions replaced |
| `HelpText.RewriteUnchangedIff` | cmd/main.go:87-92 | a field is left unchanged if and only if no mention was replaced in it |
| `HelpText.RewriteUnchangedWithoutMentions` | cmd/main.go:87-92 | if the text contains "kubectl <name>" for no listed name, it is left unchanged |
| `HelpText.RewriteUnchangedOnlyWithoutMentions` | cmd/main.go:87-92 | conversely, if a text is left unchanged, it contains "kubectl <name>" for no listed name |
| `HelpText.RewriteLeavesNoMention` | cmd/main.go:87-92 | when no name contains 'k', the result contains "kubectl <name>" for no listed name |
| `HelpText.RewriteIdempotent` | cmd/main.go:86-92 | when no name contains 'k', updating a field twice gives the same text as updating it once |
| `HelpText.KapplyHelpRewritten` | cmd/main.go:59-73 | with kapply's own name list, no "kubectl <name>" is left in an updated field, and a second update changes nothing |
| `StatusReaders.NewGenericStatusReader` | pkg/kstatus/polling/statusreaders/generic.go:17-27 | the base reader and the inner generic reader hold the same cluster reader and mapper. The inner reader's status function is the given compute function. |
| `StatusReaders.ReadStatusForObject` | pkg/kstatus/polling/statusreaders/generic.go:44-62 | on an error: status Unknown, that error attached, no resource and an empty message. On success: the computed status and message, the input resource attached and no error. Both branches set the identifier from the resource's group, kind, namespace and name. Exactly one of resource and error is present. An attached resource has the record's identifier. |
| `StatusReaders.ReadStatusDependsOnlyOnOutcome` | pkg/kstatus/polling/statusreaders/generic.go:44-47 | the record depends only on the resource and the status function's answer for it. The context, the reader and the mapper play no part. |
| `StatusReaders.NewGenericReaderUsesCompute` | pkg/kstatus/polling/statusreaders/generic.go:17-62 | a reader built by NewGenericStatusReader produces exactly the record that compute's answer dictates |

## Left out

- The body of `main` (cmd/main.go:41-83) is not modelled. It covers flag setup, the client factory, standard I/O streams, logging, building the sub-commands and running cobra. This is command-line and I/O plumbing over libraries outside this model. Only its name list (line 59) is kept, as `KapplyNames`.
- `HelpText.UpdateHelp` does not model a nil command pointer, which would panic in Go. Its argument is a non-null `Command`.
- `ReplaceAll` works on characters: one character stands for one Unicode code point. UTF-8 byte encoding is not modelled. Go's shortcut that returns the input when old equals new is not modelled separately, because the result is the same.
- cobra.Command has many more fields. The model keeps Use, Short, Long, Example and the two silence flags, enough to show that only the three help texts change.
- The internals of the status library's `Compute` are not modelled. Its function is a parameter.
- `object.UnstructuredToObjMetaOrDie` is not modelled as foreign code. It becomes `Identifier`, which reads the identity fields. Its panic on malformed input is not modelled.
- A status function that returns a nil result together with a nil error is not modelled. In Go it would cause a nil dereference.
- The cluster reader and the REST mapper are opaque values of type parameters. The generic reader stores them but does not use them.
- `baseStatusReader`'s own methods and the `resourceTypeStatusReader` interface are not part of this model. Neither are the polling engine, the aggregator and the event stream.
- `context.Context` is a parameter of any type that is ignored. Cancellation is not modelled, since the code does not use the context.
- Fields of `event.ResourceStatus` other than those set in `generic.go`, such as generated resources, are not modelled.
