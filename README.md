# spot: repository status scan, modelled in Dafny

`spot` is a command-line tool that reports which git working copies have uncommitted changes or unpushed commits. Its logic lives in `internal/command.go`, and this project models that file:

- **Classification** (`isDirty`). Two git queries are run in a working copy: `git status --porcelain` and `git log --oneline --branches --not --remotes`. A query signals its condition only when it succeeded and printed something. The labels of the signals that hold are joined with `" and "`, status first. That gives `"uncommitted changes"`, `"unpushed commits"`, `"uncommitted changes and unpushed commits"`, or `""` for clean.
- **Scan** (`GetVCSInfos`). The working directory is classified first, if it is a working copy. Then every entry of its listing whose joined path is a working copy is classified, in listing order. A path is a working copy when `<path>/.git` is a directory. The scan goes one level deep only. It does not recurse. It checks the entries even when the working directory is itself a repository. Each record is styled dirty exactly when its reason is non-empty.
- **Rendering** (`Run`). Each record becomes one line, `<display path> (<status>)`. The display path replaces a leading copy of the home directory string with `~`. This is a plain string-prefix test with no path-boundary check: with home `/home/u`, the path `/home/user2/r` is shown as `~ser2/r`. The status is the reason, or `clean` when the reason is empty.

The outside world becomes the `Command.Env` datatype, which holds these oracles:

- the working directory, or none when it cannot be obtained;
- "stat succeeds and is a directory";
- the directory listing, or none when it cannot be read;
- the outcome of each git query, as a success flag plus the output's length in bytes.

The scanning and rendering loops and the classifying appends are methods. Each is proved equal to a specification function: `Command.Reason`, `Command.Scan` or `Command.RenderLine`. Lemmas then state the scan's guarantees about those functions.

The command's help text (cmd/root.go:14 and :25) speaks of target directories scanned up to 2 levels deep. `internal/command.go` reads no targets and scans only the current directory and its immediate entries. The model follows the code.

Files:

- `wrappers.dfy`: `Option`.
- `gostrings.dfy`: the Go library helpers the code calls. These are `strings.Join`, `strings.HasPrefix`, `strings.TrimPrefix`, and `filepath.Join` of one segment. It also defines `HasSuffix`, which the code does not call; the lemmas use it to state properties of the output.
- `command.dfy`: the model of `internal/command.go`.

## Model

| member | source | states |
|---|---|---|
| `GoStrings.Join` | internal/command.go:93 | strings.Join: no parts give "", one part gives itself, and the result starts with the first part. Its length is the parts' total length plus one separator between each neighbouring pair. |
| `GoStrings.JoinCons` | internal/command.go:93 | Read from the front, the join of two or more parts is the first part, the separator, then the join of the rest. With Join's contract, this fixes the whole content. |
| `GoStrings.HasPrefix` | internal/command.go:107 | Definition of strings.HasPrefix: the prefix is no longer than the string and equals the string's leading part. |
| `GoStrings.TrimPrefix` | internal/command.go:108 | Putting the prefix back in front of the result gives the input. Without the prefix, the input comes back unchanged. |
| `GoStrings.JoinPath` | internal/command.go:55 | The joined path extends the directory, then a `/`, then exactly the entry name, so it is strictly longer than the directory. |
| `Command.IsGitRepo` | internal/command.go:70-73 | Definition: a path is a working copy when the oracle says that `<path>/.git` can be stat'ed and is a directory. |
| `Command.Signal` | internal/command.go:86-89 | Definition: a query signals exactly when it succeeded and its output is non-empty, the tests at lines 86 and 89. |
| `Command.Classify` | internal/command.go:75-96 | Definition of isDirty as a function: the record keeps the path, and its reason is `Reason` of the status and log signals run in that path. |
| `Command.Reason` | internal/command.go:85-93 | Definition, case by case: both signals give "uncommitted changes and unpushed commits". The status signal alone gives "uncommitted changes". The log signal alone gives "unpushed commits". Neither gives "". |
| `Command.IsDirty` | internal/command.go:75-96 | The conditional appends plus the join produce a record for the same path. Its reason is `Reason` of the status signal and the log signal. That is the full label set, joined status first, or "" when neither holds. |
| `Command.ReasonReports` | internal/command.go:85-93 | Both signals can be read back from the reason. It starts with "uncommitted changes" iff the status signal holds. It ends with "unpushed commits" iff the log signal holds. It is "" iff neither holds. |
| `Command.ReasonInjective` | internal/command.go:85-93 | Different signal pairs always give different reasons. |
| `Command.QueryFailureReadsAsAbsent` | internal/command.go:86-91 | A failed query counts as its condition being absent, whatever it printed. Each half of the reason depends only on its own query. |
| `Command.StyleFor` | internal/command.go:42-45 | Definition of the style choice (also at lines 59-62): dirty for a non-empty reason, clean otherwise. |
| `Command.ToStatus` | internal/command.go:46 | Definition of the record built at lines 46 and 63: the classification's path and reason, with the style that `StyleFor` gives the reason. |
| `Command.ClassifiedStatus` | internal/command.go:41-46 | The record appended for a working copy has that copy's path and reason. Its style is dirty iff the reason is non-empty. |
| `Command.Listing` | internal/command.go:49-52 | Definition: the entry names of the working directory, or no names when the listing fails. |
| `Command.RepoEntries` | internal/command.go:54-65 | Definition of the filter loop: the working directory joined with each listed name, kept when that path is a repo, in listing order. |
| `Command.Scan` | internal/command.go:32-68 | Definition of GetVCSInfos as a function: no records when Getwd fails; otherwise the classifications of the working directory (if it is a repo) and then of the kept entries, each styled by its reason. |
| `Command.GetVCSInfos` | internal/command.go:32-68 | The accumulated report equals `Scan`: the working directory's record (when it is a repo), then one record per listed entry that is a repo, in listing order. |
| `Command.ScanGetwdError` | internal/command.go:35-38 | If the working directory cannot be obtained, the report is empty. |
| `Command.ScanListingError` | internal/command.go:49-52 | If the listing fails, the report holds at most one record. That record exists iff the working directory is a repo, and it is for the working directory. |
| `Command.ScanCwdFirst` | internal/command.go:40-47 | The report starts with the working directory's record iff the working directory is a repo. |
| `Command.ScanRecordsClassified` | internal/command.go:57-63 | Every record's reason is its own path's classification. Its style is dirty iff its reason is non-empty, iff one of its two git queries signalled. |
| `Command.ScanShallow` | internal/command.go:54-65 | The report has at most 1 + (number of entries) records. Every reported path is a repo. Each is either the working directory or the working directory joined with one listed name; nothing deeper is reported. |
| `Command.ScanComplete` | internal/command.go:54-65 | Every listed entry that is a repo is reported, after the working directory's record. |
| `Command.ScanOrdered` | internal/command.go:54-65 | Two listed repos are reported in their listing order. |
| `Command.ScanDistinct` | internal/command.go:54-65 | When the listing repeats no name, no path is reported twice. With ScanComplete and ScanOrdered, each listed repo has exactly one record, in listing order. |
| `Command.ScanPaths` | internal/command.go:40-65 | An unfolding of `Scan`, kept as a proof step for ScanOrdered: record k of the scan is the classification of reported path k (the working directory if it is a repo, then the kept entries). It adds no claim of its own. |
| `Command.RepoEntriesShape` | internal/command.go:54-65 | The loop keeps no more paths than there are listed names. Every kept path is a repo and a direct child of the working directory. |
| `Command.RepoEntriesDistinct` | internal/command.go:54-65 | From a listing with no repeated name, the kept paths are pairwise distinct, and none is the working directory itself. |
| `Command.RepoEntriesComplete` | internal/command.go:57-64 | The loop keeps every listed name whose joined path is a repo. |
| `Command.RepoEntriesOrdered` | internal/command.go:54-65 | The loop keeps paths in listing order. |
| `Command.DisplayPath` | internal/command.go:106-109 | When home is non-empty and a prefix of the path, the display is `~` followed by the rest: home plus the text after `~` gives back the path. Otherwise the path is unchanged. |
| `Command.StatusText` | internal/command.go:111-114 | Definition: the reason when it is non-empty, otherwise "clean". |
| `Command.StatusTextOfReason` | internal/command.go:111-114 | The shown status is never empty. It is "clean" iff neither git query signalled. |
| `Command.DirtyLineNotClean` | internal/command.go:111-116 | A line showing a non-empty reason cannot end in " (clean)". |
| `Command.RenderLineCleanIff` | internal/command.go:111-116 | For a record whose reason comes from two signals and whose style follows its reason, the line ends in " (clean)" iff the record is styled clean. |
| `Command.RenderedCleanIff` | internal/command.go:105-117 | A report line ends in " (clean)" iff its record is styled clean. |
| `Command.RenderLine` | internal/command.go:116 | Definition of one printed line: the record's style with the text `<DisplayPath> (<StatusText>)`. |
| `Command.Run` | internal/command.go:98-120 | Run emits exactly one line per scanned record, in report order. Each line carries the record's style and `<display path> (<status>)`. |

## Left out

- Running git (`exec.Command`, lines 76-83). Each query is an oracle giving a success flag and the output length; the output text is not modelled.
- `os.Getwd`, `os.ReadDir` and `os.Stat` are oracles. The model assumes the file system and the git state do not change during a scan. Directory entries are taken by name, whether or not they are directories. The code does the same: `isGitRepo` decides.
- Go strings are byte strings, while the model's strings are character sequences. The byte comparisons of `strings.HasPrefix` and `strings.TrimPrefix` become character comparisons, and a path that is not valid UTF-8 cannot be represented.
- `os.ReadDir` returns entries sorted by file name. The model takes the listing order from the oracle and does not assume it is sorted. `ScanDistinct` assumes no repeated names, which holds for the entries of one directory.
- `filepath.Join` is modelled as `dir + "/" + name` without cleaning, so a working directory of `/` gives `//name` where Go gives `/name`.
- `os.UserHomeDir` is the `home` parameter of `Run`. The code ignores its error, which leaves `home` as "".
- Terminal styles and colours (lipgloss, lines 14-19) are a two-valued `Style`.
- Printing, the header line and the bullet (lines 103 and 116) are left out. `Run` returns the rendered lines instead of printing them, and it has no error result, because the code always returns nil.
- `cmd/root.go` (cobra wiring and a `--target` flag that `Run` never reads) is not part of this model, and neither is `main.go`.
- The help text in cmd/root.go (lines 14, 19 and 25) mentions target directories, a `-t` flag and scanning up to 2 levels deep. `internal/command.go` reads no targets and has no depth bound, so neither is modelled.
