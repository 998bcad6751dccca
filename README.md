# PathBuilder in Dafny

A model of the PathBuilder library (`PathBuilder/PathBuilder.cs`): three
fluent builders that produce path strings.

- `FormatPathBuilder` reformats one path string.
- `RelativePathBuilder` asks the .NET URI machinery for the relative path
  between two paths.
- `AbsolutePathBuilder` folds a list of `GoTo` steps over a start path with
  the .NET path functions.

Each builder uses the same string pipeline:

1. Separator normalisation: the two `Replace` calls turn every `/` and `\`
   into the chosen separator.
2. `TerminateWithSlash`, when `terminateDirsWithSlash` is set: append the
   separator unless the path is empty, already ends with it, or has an
   extension.
3. `Trim`, when `trimSlashes` is set: collapse every run of separators into
   one.

`Format` runs its path through all three steps. `Create` runs each input
through steps 1 and 2 only (`Prepare`), and never trims an input. It runs
the library's answer through all three steps (`FormatString`).

The model has these modules:

- `Wrappers` holds `Option`. `None` stands for an exception thrown by a
  library call.
- `Separators` holds `ReplaceChar` and `Normalize`.
- `PathExtension` models `Path.GetExtension` as the backward scan the .NET
  library performs.
- `Slashes` holds `Trim`, the loop, proved against the function `Collapse`,
  and `TerminateWithSlash`.
- `Pipeline` holds the pipeline as the function `FormatString` and its
  idempotence.
- `PathBuilder` holds the three builders as classes. Their fields are
  assigned by the chained setters and rewritten by `Format` and `Create`.

The two library resolution calls are parameters of `Create`:
`new Uri(from).MakeRelativeUri(new Uri(to))` becomes `makeRelativeUri`, and
`Path.GetFullPath(Path.Combine(Path.GetDirectoryName(result), entry))`
becomes `resolveStep(result, entry)`. Each returns an `Option<string>`, and
`None` stands for the exception the library would throw. The model
therefore verifies the orchestration around those calls:

- what is normalised before them, and in which order;
- what post-processing their answer gets;
- that no foreign separator survives, whatever they return.

Modelling choices:

- The resolvers are the two library calls. How a path is rooted, how `..`
  behaves at the root and which inputs are rejected are therefore decided
  by those calls, not by this model.
- `Path.GetExtension` is the .NET backward scan. The scan starts at the end,
  and the first `.` met before a `/`, `\` or `:` starts the extension. When
  that `.` is the final character, the extension is empty even if the
  segment holds an earlier `.`. So `a.b.` has no extension, and
  `TerminateWithSlash` appends a separator to it.

## Model

| member | source | states |
|---|---|---|
| `Separators.ReplaceChar` | PathBuilder/PathBuilder.cs:59 | `Replace(a, b)` keeps the length, puts `b` wherever `a` was and keeps every other character in its place |
| `Separators.Normalize` | PathBuilder/PathBuilder.cs:59-60 | the two `Replace` calls keep the length and every non-separator character in place; they put the chosen separator at every `/` or `\`, and no other separator is left |
| `Separators.NormalizeFixesNormalized` | PathBuilder/PathBuilder.cs:280-281 | normalising a string that already uses only the chosen separator changes nothing, so re-normalising the prepared `start` when there are no `GoTo` entries, or the path of a second `Format` (:59-60), does no harm |
| `Separators.NormalizeIdempotent` | PathBuilder/PathBuilder.cs:59-60 | normalising twice equals normalising once |
| `Separators.OnlySeparatorExcludesOther` | PathBuilder/PathBuilder.cs:59-60 | after normalising to `/` no `\` remains, and after normalising to `\` no `/` remains: `OtherSeparator(slash)` does not occur |
| `PathExtension.ScanBack` | PathBuilder/PathBuilder.cs:323 | the backward scan returns -1 or the index of a `.`; no `.` and no `/`, `\` or `:` comes after that `.` |
| `PathExtension.Extension` | PathBuilder/PathBuilder.cs:323 | a non-empty extension is a suffix of the path of length two or more that starts with `.` |
| `PathExtension.ScanBackFinds` | PathBuilder/PathBuilder.cs:323 | the scan finds every `.` that has no `.`, `/`, `\` or `:` after it |
| `PathExtension.ExtensionCharacterized` | PathBuilder/PathBuilder.cs:323 | the extension is non-empty exactly when some non-final `.` has no `.`, `/`, `\` or `:` after it, and then the extension is the suffix from that `.` |
| `Slashes.RemoveAll` | PathBuilder/PathBuilder.cs:228-232 | deleting every separator leaves no separator and keeps every other character as often as it occurred |
| `Slashes.Collapse` | PathBuilder/PathBuilder.cs:297-318 | collapsing never lengthens the string and keeps its last character |
| `Slashes.Trim` | PathBuilder/PathBuilder.cs:297-318 | the `foreach` loop with its `lastWasChr` flag computes `Collapse` of its input |
| `Slashes.CollapseNoDoubled` | PathBuilder/PathBuilder.cs:297-318 | after trimming, no two neighbouring characters are both the separator |
| `Slashes.CollapseKeepsOthers` | PathBuilder/PathBuilder.cs:228-232 | trimming changes only separator run lengths: deleting every separator from input and output gives the same string |
| `Slashes.CollapseFixesNoDoubled` | PathBuilder/PathBuilder.cs:297-318 | a string without a doubled separator is returned unchanged |
| `Slashes.CollapseIdempotent` | PathBuilder/PathBuilder.cs:297-318 | trimming twice equals trimming once |
| `Slashes.CollapseRun` | PathBuilder/PathBuilder.cs:304-309 | a run of one or more separators becomes exactly one separator: never more, never dropped |
| `Slashes.CollapseSplit` | PathBuilder/PathBuilder.cs:310-314 | a non-separator character resets the flag, so the two sides of it are trimmed independently |
| `Slashes.CollapseBeforeUndoubled` | PathBuilder/PathBuilder.cs:310-314 | a tail that starts with a non-separator and has no doubled separator passes through trimming unchanged |
| `Slashes.CollapseKeepsExtension` | PathBuilder/PathBuilder.cs:63-69 | when the separator is `/` or `\`, trimming keeps an extension in place at the end |
| `Slashes.CollapseKeepsHasExtension` | PathBuilder/PathBuilder.cs:63-69 | when the separator is `/` or `\`, a path with an extension still has one after trimming |
| `Slashes.TerminateWithSlash` | PathBuilder/PathBuilder.cs:319-330 | the result is the input or the input plus the separator; it is the input exactly when the input is empty, has an extension or ends with the separator |
| `Slashes.TerminatedShape` | PathBuilder/PathBuilder.cs:319-330 | every result is empty, has an extension or ends with the separator |
| `Slashes.TerminateIdempotent` | PathBuilder/PathBuilder.cs:319-330 | terminating twice equals terminating once |
| `Slashes.TerminateAfterCollapse` | PathBuilder/PathBuilder.cs:63-69 | a terminated path is still terminated after trimming |
| `Pipeline.CollapseKeepsOnlySeparator` | PathBuilder/PathBuilder.cs:69 | trimming never brings back a foreign separator |
| `Pipeline.TerminateKeepsOnlySeparator` | PathBuilder/PathBuilder.cs:65 | terminating appends only the chosen separator |
| `Pipeline.FormatString` | PathBuilder/PathBuilder.cs:57-73 | the result uses only the chosen separator; with `trimSlashes` it has no doubled separator; without `trimSlashes` it is the normalised input, or that plus the separator when `terminateDirsWithSlash` is set |
| `Pipeline.Prepare` | PathBuilder/PathBuilder.cs:117-130 | a prepared input uses only the chosen separator and is the normalised input, or that plus the separator when `terminateDirsWithSlash` is set |
| `Pipeline.FormatIdempotent` | PathBuilder/PathBuilder.cs:57-73 | formatting a formatted path changes nothing, for every choice of separator and flags |
| `Pipeline.FormatAbsorbsPrepare` | PathBuilder/PathBuilder.cs:245-290 | post-processing a prepared path gives the same result as post-processing the raw path |
| `PathBuilder.ResolveAll` | PathBuilder/PathBuilder.cs:273-277 | folding over no entries returns the start path; a failing first step makes the whole fold fail |
| `PathBuilder.ResolveAllSnoc` | PathBuilder/PathBuilder.cs:274-277 | one more `GoTo` entry resolves that entry against the result of the earlier ones |
| `PathBuilder.Convert` | PathBuilder/PathBuilder.cs:258-266 | converting one entry yields `Prepare` of it, which uses only the chosen separator |
| `PathBuilder.ConvertAll` | PathBuilder/PathBuilder.cs:255-270 | `convertedGoTo` has the same length and order as `goTo`, and each entry is that entry prepared |
| `PathBuilder.PostProcess` | PathBuilder/PathBuilder.cs:279-290 | the post-processing yields `FormatString` of its input: only the chosen separator, and no doubled separator when trimming |
| `PathBuilder.Fold` | PathBuilder/PathBuilder.cs:272-277 | the loop resolves each entry against the previous result, stops at the first failure, and returns `start` when there are no entries |
| `PathBuilder.FormatPathBuilder.constructor` | PathBuilder/PathBuilder.cs:27-35 | a new builder holds the path, the separator `/` and both flags off |
| `PathBuilder.FormatPathBuilder.UseBackslashes` | PathBuilder/PathBuilder.cs:37-41 | sets only `slash`, to `\`, and returns the same builder |
| `PathBuilder.FormatPathBuilder.UseForwardslashes` | PathBuilder/PathBuilder.cs:42-46 | sets only `slash`, to `/`, and returns the same builder |
| `PathBuilder.FormatPathBuilder.TerminateDirsWithSlash` | PathBuilder/PathBuilder.cs:47-51 | sets only its own flag and returns the same builder |
| `PathBuilder.FormatPathBuilder.TrimSlashes` | PathBuilder/PathBuilder.cs:52-56 | sets only its own flag and returns the same builder |
| `PathBuilder.FormatPathBuilder.Format` | PathBuilder/PathBuilder.cs:57-73 | for a builder whose separator is `/` or `\` (as the constructor and setters leave it), overwrites `path` with the pipeline applied to it, returns that value, and changes nothing else; the result holds no character of the other separator |
| `PathBuilder.FormatTwice` | PathBuilder/PathBuilder.cs:57-73 | because `Format` stores its result in `path`, a second call returns the same string as the first |
| `PathBuilder.RelativePathBuilder.constructor` | PathBuilder/PathBuilder.cs:78-82 | a new builder has empty `from` and `to`, the separator `/` and both flags off |
| `PathBuilder.RelativePathBuilder.From` | PathBuilder/PathBuilder.cs:84-88 | sets only `from` |
| `PathBuilder.RelativePathBuilder.To` | PathBuilder/PathBuilder.cs:89-93 | sets only `to` |
| `PathBuilder.RelativePathBuilder.UseBackslashes` | PathBuilder/PathBuilder.cs:94-98 | sets only `slash`, to `\` |
| `PathBuilder.RelativePathBuilder.UseForwardslashes` | PathBuilder/PathBuilder.cs:99-103 | sets only `slash`, to `/` |
| `PathBuilder.RelativePathBuilder.TerminateDirsWithSlash` | PathBuilder/PathBuilder.cs:104-108 | sets only its own flag |
| `PathBuilder.RelativePathBuilder.TrimSlashes` | PathBuilder/PathBuilder.cs:109-113 | sets only its own flag |
| `PathBuilder.RelativePathBuilder.Create` | PathBuilder/PathBuilder.cs:114-150 | for a builder whose separator is `/` or `\`, rewrites `from` and `to` to their prepared forms; passes them to the relative-URI call; fails when that call fails; otherwise returns its answer post-processed, which holds no character of the other separator |
| `PathBuilder.AbsolutePathBuilder.constructor` | PathBuilder/PathBuilder.cs:155-159 | a new builder has an empty `start`, an empty `goTo`, the separator `/` and both flags off |
| `PathBuilder.AbsolutePathBuilder.StartAt` | PathBuilder/PathBuilder.cs:164-168 | sets only `start` |
| `PathBuilder.AbsolutePathBuilder.GoTo` | PathBuilder/PathBuilder.cs:192-196 | appends exactly one entry at the end of `goTo` and changes nothing else |
| `PathBuilder.AbsolutePathBuilder.UseBackslashes` | PathBuilder/PathBuilder.cs:201-205 | sets only `slash`, to `\` |
| `PathBuilder.AbsolutePathBuilder.UseForwardslashes` | PathBuilder/PathBuilder.cs:210-214 | sets only `slash`, to `/` |
| `PathBuilder.AbsolutePathBuilder.TerminateDirsWithSlash` | PathBuilder/PathBuilder.cs:222-226 | sets only its own flag |
| `PathBuilder.AbsolutePathBuilder.TrimSlashes` | PathBuilder/PathBuilder.cs:233-237 | sets only its own flag |
| `PathBuilder.AbsolutePathBuilder.Create` | PathBuilder/PathBuilder.cs:242-294 | for a builder whose separator is `/` or `\`, rewrites `start` to its prepared form; rewrites `goTo` entry by entry, keeping its length and order; fails when a resolution step fails; otherwise returns the folded result post-processed, which holds no character of the other separator; with no `GoTo` entries the result is the post-processed `start` |

## Left out

- The meaning of `new Uri(from).MakeRelativeUri(new Uri(to))` (PathBuilder/PathBuilder.cs:133). URI parsing, percent-escaping and scheme rules are outside the model. The call is the parameter `makeRelativeUri`, and its exceptions are `None`.
- The meaning of `Path.GetFullPath(Path.Combine(Path.GetDirectoryName(..), ..))` (PathBuilder/PathBuilder.cs:276). It depends on the platform and on the process's current directory. It is the single parameter `resolveStep`, and its exceptions are `None`. No concrete expected path of the test file can be derived without it.
- The static factory methods `CreateRelativePath`, `CreateAbsolutePath` and `FormatPath` (PathBuilder/PathBuilder.cs:12-23). They only call the constructors, which are modelled.
- Platform differences in `Path.GetExtension`. On some platforms `\` and `:` do not stop the scan, and older runtimes reject invalid path characters with an exception. The model uses one rule for all platforms.
- The exact type of exception and the message a failing library call produces. The model only records that the call failed.
- Null arguments. In C#, a null passed to `FormatPath`, `From`, `To`, `StartAt` or `GoTo` makes `Format` or `Create` throw a `NullReferenceException` at the first `Replace` (PathBuilder/PathBuilder.cs:59, :117, :119, :245, :259). A Dafny `string` cannot be null. So the model's `Format` never fails, and `Create` fails only when a library call fails.
- The round trip between the relative and the absolute builder. It depends entirely on the two library calls.
