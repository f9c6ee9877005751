# text-similarity in Dafny

`main.ts` scores one source sentence ("That is a happy person") against a
list of target sentences with a hosted sentence-similarity model, then writes
the scores to `results.jsonc`. This project models what the script does to
its data before and after the network call, as pure Dafny functions with
lemmas about them:

- **Target list** (`targets.dfy`). A multi-line literal is split on `'\n'`.
  Every piece is trimmed the way JavaScript's `String.prototype.trim` does it
  (all white space and line terminators at both ends). Empty pieces are
  dropped. The embedded literal itself is a constant, assembled from its
  eight paragraphs of three lines.
- **Label stripping** (`labels.dfy`). Before it is sent, each target goes
  through `replaceAll(/^\d+\. |[\[\]【】]/gmu, '')`. That is one left-to-right
  pass over the original string. It deletes every `[`, `]`, `【`, `】`, and
  every run of ASCII digits followed by `". "` that starts a line. A line
  starts at position 0 or just after `\n`, `\r`, U+2028 or U+2029.
  `StripFrom` follows the regex scan. `Survivors` is an independent
  reference definition that says which characters are kept. The two are
  proved equal.
- **Request and result** (`query.dfy`, `jsobject.dfy`). The request carries
  the source and the stripped targets, position for position. The answer
  is zipped back with `Object.fromEntries`, keyed by the original targets.
  `jsobject.dfy` models a JavaScript object as its key order plus a map:
  - defining an existing key keeps its position and replaces its value;
  - `Object.entries` lists canonical array-index keys first, in ascending
    numeric order, then the other keys in creation order.
- **Report** (`report.dfy`). A fixed header, one `\t\t[<score>, <label>],`
  line per entry joined by `'\n'`, then a fixed footer.

Strings are sequences of Unicode code points. The regex runs with the `u`
flag, and every character `trim` removes lies in the Basic Multilingual
Plane, so UTF-16 code units and code points give the same results here. The
scores come back from the model over the network, so they are a parameter,
`scores: seq<V>`. Printing a score with `toFixed(3)` is the parameter
`fixed3`. Quoting a string with `JSON.stringify` is the parameter `quote`.

Two descriptions of this program disagree with its code. The model follows
the code in both cases:

- The report is sometimes described as listing results in insertion order.
  `Object.entries` in fact puts array-index keys such as `"42"` first
  (`JsObject.OwnKeysSpec`). Insertion order is guaranteed when the targets
  are pairwise different and none is an array index
  (`Report.ReportInTargetOrder`).
- Label stripping is sometimes described as idempotent. It is not:
  `"[1. x"` strips to `"1. x"`, and that strips to `"x"`
  (`Labels.StripNotIdempotent`).

## Model

| member | source | states |
|---|---|---|
| Strings.Trim | main.ts:53 | the result is empty, or neither of its ends is white space or a line terminator |
| Strings.TrimSlice | main.ts:53 | trimming removes only a run of trimmable characters at each end; the rest is kept as one contiguous slice |
| Strings.TrimKeepsTrimmed | main.ts:53 | a string whose ends are not trimmable is returned unchanged |
| Strings.SplitOn | main.ts:52 | splitting on `'\n'` gives one more piece than there are separators; no piece contains the separator; joining the pieces with it gives back the input |
| Strings.SplitJoin | main.ts:52 | splitting undoes joining, for pieces that do not contain the separator |
| Strings.JoinWith | main.ts:104 | `join('\n')` starts with the first piece; the empty list joins to the empty string |
| Strings.JoinLength | main.ts:104 | a join is as long as its pieces together plus one separator between each pair of neighbours |
| Strings.JoinAppend | main.ts:104 | joining two non-empty lists of lines is joining each and putting one separator between them |
| Targets.KeepNonEmpty | main.ts:54 | `filter(Boolean)` keeps a subsequence; a string is in the result exactly when it is in the input and is not empty; every non-empty string is kept as many times as it occurs, repeats included |
| Targets.TrimEach | main.ts:53 | one trimmed line per line, the i-th being the i-th line trimmed |
| Targets.Normalise | main.ts:52-54 | the targets are non-empty, and there are at most as many as there are lines |
| Targets.NormaliseOrder | main.ts:52-54 | there are at most as many targets as lines; the targets are a subsequence of the trimmed lines, so their order is kept |
| Targets.NormaliseTrimmed | main.ts:52-54 | every target is non-empty, contains no `'\n'`, and has no white space or line terminator at either end |
| Targets.NormaliseComplete | main.ts:52-54 | every line that is not blank after trimming shows up, trimmed, among the targets |
| Targets.CleanLinesNormalise | main.ts:52-54 | when the lines are already trimmed, normalising only drops the empty lines |
| Targets.EmbeddedTargetsAreGroups | main.ts:17-54 | the embedded block normalises to its eight groups of three lines, concatenated in order |
| Targets.EmbeddedTargetsValue | main.ts:17-54 | the embedded block gives 24 targets; the first is `1. That is a happy person` and the last is `8. 那是一条开心的【狗】` |
| Labels.OrdinalLength | main.ts:71 | a non-zero length marks a match of `^\d+\. `: at a line start, at least three characters, ending in `". "` and within the string |
| Labels.OrdinalDigits | main.ts:71 | everything in a match before the final `". "` is an ASCII digit |
| Labels.OrdinalLengthComplete | main.ts:71 | at every line start that begins with digits then `". "`, the match is found and covers the whole digit run |
| Labels.StripFrom | main.ts:71 | the single pass from position i yields at most as many characters as remain from i |
| Labels.Strip | main.ts:71 | the stripped label is a subsequence of the label, never longer, and contains none of `[`, `]`, `【`, `】` |
| Labels.StripIsSurvivors | main.ts:71 | the single-pass scan keeps exactly the characters that are not brackets and lie in no line-initial ordinal of the original string |
| Labels.StripUnchanged | main.ts:71 | stripping leaves a label unchanged exactly when it has no bracket and no line-initial ordinal |
| Labels.StripNumberedLine | main.ts:71 | on a one-line label `<digits>. <text>`, stripping drops the number and the brackets of the text and keeps everything else |
| Labels.StripUnnumberedLine | main.ts:71 | on a one-line label not starting with a digit, stripping drops only the brackets |
| Labels.StripDogLine | main.ts:71 | `8. That is a happy [dog]` strips to `That is a happy dog` |
| Labels.StripPersonLine | main.ts:71 | `2. 那是一位【開心】的人` strips to `那是一位開心的人` |
| Labels.StripMultiDigitNumber | main.ts:71 | `12. x` strips to `x` |
| Labels.StripSecondNumberStays | main.ts:71 | `1. 2. x` strips to `2. x`: the pass is not repeated |
| Labels.StripMidLineNumberStays | main.ts:71 | `a 1. x` is unchanged: the number does not start a line |
| Labels.StripNotIdempotent | main.ts:71 | `[1. x` strips to `1. x`, which strips to `x` |
| Query.StripAll | main.ts:71 | one stripped sentence per target, the i-th being the i-th target stripped |
| Query.BuildPayload | main.ts:68-73 | the payload carries the source unchanged and one sentence per target, the i-th being the i-th target stripped |
| Query.PayloadAligned | main.ts:68-73 | the payload keeps the source and has one bracket-free subsequence of each target, at the target's position |
| Query.ScoredEntries | main.ts:91 | the zipped entries' keys are the targets, in order |
| JsObject.Define | main.ts:91 | after defining, the key holds the new value; the earlier key order is kept as a prefix and grows by at most the one key |
| JsObject.FromEntries | main.ts:91 | at most one key per entry, and the last entry's key holds the last entry's value |
| JsObject.Empty | main.ts:91 | the empty object is well formed and has no keys |
| JsObject.DefineValid | main.ts:91 | defining a property keeps the object well formed and sets that key's value; other keys keep their presence and values; the earlier key order is kept as a prefix, so an existing key keeps its position |
| JsObject.FromEntriesKeys | main.ts:91 | `Object.fromEntries` gives a well-formed object whose properties are exactly the entry keys |
| JsObject.FromEntriesValues | main.ts:91 | each key holds the value of its last entry |
| JsObject.FromEntriesOrder | main.ts:91 | keys are ordered by their first entry |
| JsObject.FromEntriesDistinct | main.ts:91 | with pairwise different keys, the key order is the entry order |
| JsObject.LastIndexDistinct | main.ts:91 | in a list without repeats, the last occurrence of an element is its only one |
| Query.RunQuery | main.ts:89-92 | the result keeps the source, is a well-formed object, and its properties are exactly the targets |
| Query.RunQueryResults | main.ts:89-92 | the result keeps the source; its properties are exactly the targets; a target holds the score at its last position, and holds `undefined` exactly when that position is past the end of the scores |
| Query.RunQueryDistinct | main.ts:91 | with pairwise different targets, the keys are the targets in order, and each scored target holds its own score |
| JsObject.SortIndices | main.ts:98 | array-index keys are put in ascending numeric order, as a permutation |
| JsObject.FilterIndex | main.ts:98 | keeps, in their original order, exactly the keys that pass (or fail) the array-index test |
| JsObject.OwnKeys | main.ts:98 | `Object.entries` order is a permutation of the recorded keys |
| JsObject.OwnKeysSpec | main.ts:98 | `Object.entries` order is a permutation of the keys: the array-index keys come first, ascending; the other keys follow as a subsequence of the creation order, so in creation order |
| JsObject.OwnKeysNoIndex | main.ts:98 | without array-index keys, `Object.entries` order is creation order |
| JsObject.Entries | main.ts:98 | one entry per own key in `Object.entries` order, each carrying that key's value |
| Query.RunQueryEntries | main.ts:91-98 | for pairwise different, non-array-index targets, each with a score, `Object.entries` of the results gives the zipped pairs back in target order |
| Report.EntryLine | main.ts:103 | an entry line contains a line break only if the score text or the quoted label does |
| Report.EntryLines | main.ts:103-104 | when it succeeds, there is one line per entry |
| Report.EntryLinesSpec | main.ts:103 | the lines are produced exactly when every score is defined; line i renders entry i; otherwise the error names the first entry whose score is undefined |
| Report.ReportText | main.ts:100-106 | the report text opens with `{` and closes with `}` |
| Report.Format | main.ts:97-107 | formatting succeeds exactly when every entry of `Object.entries` has a defined score; otherwise it fails on the first entry without one |
| Report.FormatJoin | main.ts:100-106 | the report is its header lines, entry lines and footer lines joined by `'\n'` (an empty entry section leaves one empty line) |
| Report.FormatSplit | main.ts:100-106 | splitting the report on `'\n'` gives back the header, the entry lines and the footer, when neither the quoted source nor any entry line contains a line break |
| Report.FormatShape | main.ts:97-107 | the report succeeds exactly when every score is defined; it then splits into the three header lines, one line per entry in `Object.entries` order, and the two footer lines |
| Report.FormatFails | main.ts:103 | an undefined score makes formatting fail on the first entry without a score, as `toFixed` on `undefined` throws |
| Report.ReportInTargetOrder | main.ts:89-107 | for pairwise different, non-array-index targets, each with a score, the report lists each target once, in target order, next to its own score |
| Report.ScoredLines | main.ts:91-104 | fully scored targets render to one line per target, in target order, and no line contains a line break |

## Left out

- The HTTP request: the headers, the API token from the environment, the URL, `fetch`, the error on a non-OK response and `retry` (main.ts:1-7, 60-66, 75-87). These are network I/O and a library's retry policy. The scores the model answers with are the parameter `scores`.
- Writing `results.jsonc` and the `console.info` calls (main.ts:109-112) are file and console I/O. `Report.Format` gives the text that would be written.
- `toFixed(3)` is floating-point rendering and becomes the parameter `fixed3`. Only its failure on `undefined` is modelled, as `Err(ScoreUndefined(key))`.
- `JSON.stringify` string escaping becomes the parameter `quote`.
- Report.FormatShape: assumes that neither `fixed3` nor `quote` produces a line break (`SingleLineOutput`). Real `JSON.stringify` escapes line breaks, and `toFixed` never produces one.
- Report.FormatSplit: same single-line assumption as `Report.FormatShape`.
- Report.ReportInTargetOrder: same single-line assumption as `Report.FormatShape`.
- Report.ScoredLines: same single-line assumption as `Report.FormatShape`.
- Report.Format: scores are assumed to be numbers, as the `number[]` annotation on the answer (main.ts:75) says. `toFixed` also throws on a score that is present but not a number, such as a JSON `null` in the answer; that failure is not modelled, and every present score is rendered through `fixed3`.
- `main.py`, the HTTP server that computes the similarities, is not part of this model. It wraps a foreign machine-learning library and has no local logic.
- The fixed source sentence (main.ts:16) is not a constant here. `Query.RunQuery` takes the source as a parameter.
