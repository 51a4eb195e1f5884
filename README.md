# findr: snippet extraction, list membership and integer extremes

findr is a command-line tool that walks a directory tree and searches every file for
a term. For each file it prints a short snippet for every line that contains the term.
This project models the part of findr that decides what gets reported, and proves
properties of it:

- `scanFileForTerm` (main.go). It splits a file's bytes into lines on `'\n'`. For every
  line containing the term, it cuts a window around the first occurrence of the term.
  The window starts at most `len(term) + 10` bytes before the occurrence and ends at
  most `len(term) + 10` bytes after its start, clamped to the line. The snippet is
  reported with the 0-based line number.
- `contains` (main.go). The directory walk uses it to skip ignored directory names and
  file extensions.
- `Max` and `Min` (math.go). These are variadic integer extremes that clamp the window.

The model has three modules:

- `MathUtil` (math.dfy) holds `Max` and `Min`. Each is a method with the source's loop,
  proved against the fold `MaxOf`/`MinOf`. The lemmas show the fold picks an argument
  that is at least (at most) every argument, and that this value is unique.
- `Strings` (strings.dfy) models the functions of Go's `strings` package that the
  scanner calls (`Split`, `Index`, `Contains`), plus `Join`, which serves only as the
  inverse of `Split`. Each has its characterising lemmas. `Split` and `Join` are
  inverses between strings and non-empty lists of newline-free pieces. `Index` is the first occurrence. `Contains` holds iff some occurrence exists.
- `Search` (search.dfy) holds `Contains` and `ScanFileForTerm`. `ScanFileForTerm` is the
  source's loop, proved equal to the specification function `Scan`. The lemmas about
  `Scan` state:
  - Line `i` has an entry iff line `i` contains the term.
  - Every entry's snippet is the clamped window, lies inside its line and holds the term.
  - Line numbers strictly ascend and stay below the number of lines, which is one more
    than the number of newlines.
  - The result is empty iff no line matches.

A Go string is a sequence of bytes. Here each `char` stands for one byte, so every
length and offset is a byte count, as in the source.

The model follows the code where it and its test disagree. For the line
`"this is the contents of a file"` and the term `"file"`, the first occurrence is at
offset 26. The window is therefore `[max(26-4-10, 0), min(26+4+10, 30)) = [12, 30)`, and
the code reports `"contents of a file"`. The test in main_test.go:17 and main_test.go:22
expects `"ents of a file"` instead. `Search.ScanOneLineExample` and
`Search.ScanTwoLineExample` prove what the code returns on the test's inputs. The second
line's snippet, `"this file also cont"`, agrees with the test.

## Model

| member | source | states |
|---|---|---|
| MathUtil.Max | math.go:3-14 | Given a non-empty argument list, the loop returns one of the arguments that is at least every argument. It equals the fold `MaxOf`, keeping the current value on a tie. |
| MathUtil.Min | math.go:16-27 | Given a non-empty argument list, the loop returns one of the arguments that is at most every argument. It equals the fold `MinOf`, keeping the current value on a tie. |
| MathUtil.FoldMaxBounds | math.go:6-11 | The running maximum ends at its start value or at a visited element. It is at least the start value and at least every visited element. |
| MathUtil.FoldMinBounds | math.go:19-24 | The running minimum ends at its start value or at a visited element. It is at most the start value and at most every visited element. |
| MathUtil.MaxOfIsMaximum | math.go:3-14 | `Max` returns a member of its arguments that is at least each of them, and it is the only such value. |
| MathUtil.MinOfIsMinimum | math.go:16-27 | `Min` returns a member of its arguments that is at most each of them, and it is the only such value. |
| MathUtil.PairExtremes | main.go:142-143 | The two-argument forms used for the window are the larger and the smaller of the two arguments. |
| Strings.Split | main.go:133 | `strings.Split(s, "\n")` always returns at least one piece, even for the empty input. Its full behaviour is proved in `Strings.SplitPieces`, `Strings.JoinSplit` and `Strings.SplitJoin`. |
| Strings.SplitPieces | main.go:133 | Splitting on `'\n'` gives one piece more than there are newlines, and no piece contains a newline. |
| Strings.JoinSplit | main.go:133 | Joining the pieces of the split with the separator gives back the file's contents, so nothing is lost or reordered. |
| Strings.SplitJoin | main.go:133 | Splitting a join of a non-empty list of separator-free pieces gives back those pieces. With `Strings.JoinSplit`, `Split` and `Join` are inverses between strings and non-empty lists of separator-free pieces. The empty list is excluded because it joins to `""`, which splits into `[""]`, as in Go. |
| Strings.SplitNoSeparator | main.go:133 | A string without the separator splits into itself alone, so a file with no newline is a single line. |
| Strings.Index | main.go:141 | `strings.Index` returns -1 or an offset at which the term fits inside the line. |
| Strings.IndexFromFindsFirst | main.go:141 | The search from an offset returns the first occurrence at or after it, or -1 when there is none there. |
| Strings.IndexIsFirstOccurrence | main.go:141 | `strings.Index` is -1 exactly when the term occurs nowhere. Otherwise the term occurs at the returned offset and at no smaller offset. |
| Strings.Contains | main.go:137 | `strings.Contains(line, term)` holds for the empty term, and holds only when the term fits inside the line. That it holds exactly when the term occurs is proved in `Strings.ContainsIffOccurs`. |
| Strings.ContainsIffOccurs | main.go:137 | `strings.Contains(line, term)` holds exactly when the term occurs somewhere in the line. |
| Search.Contains | main.go:123-130 | `contains` returns true exactly when some element of the list equals the target. |
| Search.WindowBounds | main.go:141-144 | The clamped window satisfies `0 <= lower <= idx` and `idx + len(term) <= upper <= len(line)`, even at the ends of a line. It is at most `2*len(term) + 20` bytes wide. |
| Search.Snippet | main.go:141-144 | The snippet `line[lowerBound:upperBound]` of a matching line is no shorter than the term, no longer than the line, and at most `2*len(term) + 20` bytes long. That it is the window around the first occurrence and holds the term is proved in `Search.SnippetWindow`. |
| Search.SnippetWindow | main.go:141-146 | The reported snippet is `line[lower:upper]` and holds the term at offset `idx - lower`, where `idx` is the term's first occurrence in the line. It has at most `2*len(term) + 20` bytes. |
| Search.ScanFileForTerm | main.go:132-150 | The loop over the split lines returns exactly `Scan(contents, term)`, whose properties are proved below. |
| Search.ScanLinesSound | main.go:136-147 | Every entry among the first `n` lines names a line below `n` that contains the term, and carries that line's snippet. |
| Search.ScanLinesAscending | main.go:136-147 | Line numbers in the result strictly ascend. |
| Search.ScanLinesComplete | main.go:136-147 | Every line below `n` that contains the term has an entry. |
| Search.ScanCorrect | main.go:132-150 | Over the newline-split lines of the file, line `i` has an entry iff line `i` contains the term. Every entry names a line of the file and carries that line's window around the first occurrence. Line numbers strictly ascend. |
| Search.ScanEmptyIffNoMatch | main.go:134-149 | The result is empty exactly when no line contains the term, which is when the directory walk reports nothing for the file. |
| Search.EmptyTermMatchesEveryLine | main.go:137 | With the empty term, every line matches and line `k` is the `k`-th entry. This is what the caller's empty-term refusal guards against. |
| Search.FirstTestLineIndex | main_test.go:15-17 | In `"this is the contents of a file"`, `"file"` first occurs at offset 26. |
| Search.FirstTestLine | main_test.go:15-17 | For that line and term, the code's snippet is `"contents of a file"`, not the test's `"ents of a file"`. |
| Search.SecondTestLineIndex | main_test.go:20-22 | In `"this file also contains a second line"`, `"file"` first occurs at offset 5. |
| Search.SecondTestLine | main_test.go:20-22 | For that line and term, the snippet is `"this file also cont"`, as the test expects. |
| Search.ScanOneLineExample | main_test.go:14-18 | On the test's one-line input, the scan returns the single entry `("contents of a file", 0)`. |
| Search.ScanTwoLineExample | main_test.go:19-23 | On the test's two-line input, the scan returns `("contents of a file", 0)` and `("this file also cont", 1)`. |

## Left out

- `main` (main.go:40-81) is not modelled: the worker goroutines, the task and result channels, the `sync.WaitGroup`, the printing goroutine and the timing report. These are concurrency and I/O.
- `searchDirectory` (main.go:83-121) is not modelled. Reading directories and files, `log.Fatal` on an error, and sending results on channels are file-system and channel I/O. The parts this model does cover are the `contains` tests (main.go:93, 102) and the empty-result skip (main.go:115-117, see `Search.ScanEmptyIffNoMatch`).
- `path.Ext` is not part of this model. Its only role is to produce the `target` passed to `contains`.
- The global counters `DIRECTORIES_SEARCHED` and `FILES_SEARCHED` are left out. They are unsynchronised shared state updated from several goroutines, and they only feed the timing report.
- `parseCommandLineArguments` (main.go:152 onward) is left out. It is command-line parsing through the third-party `flaggy` package.
- The caller's refusal of an empty term (main.go:43-45) sits in `main`. The scanner itself accepts the empty term, so the model imposes no requirement on it. `Search.EmptyTermMatchesEveryLine` states what the scanner then returns.
- Search.ScanFileForTerm: returns an empty sequence where Go returns a nil slice when nothing matches. The model does not distinguish the two.
- MathUtil.Max and MathUtil.Min: Go panics on an empty argument list. The model requires a non-empty one instead, which is the only way the source calls them.
- Go's `int` is 64 bits wide, but the model uses unbounded integers. The window arithmetic `idx ± len(term) ± 10` cannot overflow for any string that fits in memory.
