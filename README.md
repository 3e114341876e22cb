# lesson_open_ai_api — verified model of the script helpers

This project is a Dafny model of the helper logic in a small set of Python scripts:

- **The directory manager** (`utils/dirmanage.py`). It finds the project root: the nearest directory, at or above a start path, that holds a `.git` directory. It validates a directory name against a list of forbidden substrings. It creates `<root>/<name>`.
- **The git-log dump script** (`code/run_git_log.py`). It finds the root the same way. It picks the next `gitlogNN.txt` number from the names already in the output directory. It builds the `git log` command line. It drops the commit hash from a one-line log entry.
- **The root finder in `utils/get_path.py`.**
- **The OpenAI chat script** (`core/run_open_ai.py`). The model covers its API-key check, its project-root and JSON-path computation, and its validation of a decoded message list.

The filesystem is a value: a map from absolute paths (sequences of components, `[]` being `/`) to `Dir` or `File`. Directory creation follows `pathlib.Path.mkdir`:

- the error checks and their order are a NUL byte, then `FileExistsError`, `NotADirectoryError` and `FileNotFoundError`;
- `parents=True` creates each missing ancestor in turn;
- `exist_ok=True` tolerates an existing directory.

pathlib's `/` operator is `FileSystems.Join`. It splits the right operand at `/` and drops empty and `.` segments. An absolute right operand replaces the left one.

The `DirManager` object is a Dafny class whose three optional path fields its methods update in place, against a `FileSystem` object. Each method is proved against the pure specification function beside it (`RootSearch.FindRoot`, `DirManage.EnsureSpec`, `FileSystems.MakeDir`). The lemmas are stated about those functions. The loops of the source are Dafny loops with invariants:

- the upward search for `.git`;
- the maximum over the existing log files;
- the walk over the decoded message list.

Where the code and its documentation disagree, the model follows the code:

- **The `"\0"` entry** in `INVALID_CHARS` is a raw string. It is a backslash followed by `0`, not a NUL character. So a name containing a real NUL passes validation (`DirManage.NulCharacterPasses`), and the later `mkdir` rejects it with `ValueError` (the `EmbeddedNul` error). The name `a\0b`, with a literal backslash, is the one that is rejected (`DirManage.BackslashZeroRejected`).
- **`ensure_parentdir_from_dirname`** creates `<root>/<name>`, not `<root>/out/<name>`.
- **`load_messages`** keeps only the `role` and `content` keys of each item. Extra keys are accepted and dropped; they are not an error.
- **`next_index`** treats `gitlog100.txt` and above as not numbered, because the tail must be exactly two digits. So when `gitlog99.txt` exists, the next index is 100 and its file name `gitlog100.txt` is reused on every later run. `GitLog.HundredIsReused` states this.

## Model

| member | source | states |
|---|---|---|
| FileSystems.Join | utils/dirmanage.py:62 | joining a segment without `/` appends it as one component, or appends nothing when it is empty or `.` |
| FileSystems.MakeDir | utils/dirmanage.py:64-67 | mkdir never removes or changes an existing entry; new entries are directories on the path being created; success means the path is a directory without a NUL byte; without `parents`, a failure leaves the tree unchanged |
| FileSystems.MakeDirExisting | utils/dirmanage.py:37 | with `exist_ok=True`, mkdir of an existing directory succeeds and changes nothing, whatever `parents` is |
| FileSystems.MakeDirCreates | utils/dirmanage.py:65 | with `parents=True, exist_ok=True`, mkdir succeeds whenever `/` exists, the path has no NUL byte and neither it nor any ancestor is a file |
| FileSystems.CreatesUnderDir | utils/dirmanage.py:37 | without `parents`, mkdir of a new path whose parent is a directory adds exactly that directory and succeeds, whatever `exist_ok` is |
| FileSystems.FileInTheWay | utils/dirmanage.py:64-67 | mkdir of a path that is a file fails, whatever the flags |
| FileSystems.FileSystem.Mkdir | utils/dirmanage.py:64-67 | the object's tree and the returned error are exactly those of `MakeDir` on the old tree |
| RootSearch.SearchStart | utils/get_path.py:12-13 | a file start is replaced by its parent directory; any other start is kept; the result is a prefix of the start |
| RootSearch.NearestRoot | utils/get_path.py:16-18 | the found directory is an ancestor-or-self holding `.git`; no deeper ancestor holds `.git`; nothing is found exactly when no ancestor holds `.git` |
| RootSearch.NearestRootUnique | utils/get_path.py:16-18 | any ancestor that holds `.git` while no deeper ancestor does is the one the search returns |
| RootSearch.FindRoot | utils/get_path.py:12-20 | success gives an ancestor of the search start holding `.git`, with no deeper ancestor holding it; the not-found error is raised exactly when no ancestor of the search start holds `.git` |
| RootSearch.FindRootStable | utils/dirmanage.py:60-65 | adding directories that all lie on one path at most one level deeper than the found root (prefixes of that path) does not change the root found from the same start |
| GetPath.FindProjectRoot | utils/get_path.py:3-20 | the loop over `[p, *p.parents]` returns the nearest ancestor holding `.git`, or the error exactly when none does; it agrees with `FindRoot` |
| GitLog.FindProjectRoot | code/run_git_log.py:16-33 | the same search, with the same result as `FindRoot` |
| DirManage.DirManager.constructor | utils/dirmanage.py:9-12 | a new manager has no root, no parent directory and no child directory |
| DirManage.DirManager.FindProjectRoot | utils/dirmanage.py:14-32 | on success stores the root that `FindRoot` gives in `rootdir` and returns it; when no ancestor holds `.git`, returns the missing-root error and leaves `rootdir` unchanged |
| DirManage.DirManager.SetupParentdir | utils/dirmanage.py:34-39 | without a root, fails with no change; otherwise records `<root>/out` and creates it with `parents=False, exist_ok=True`, wrapping a mkdir error |
| DirManage.ValidateDirname | utils/dirmanage.py:41-57 | a name is accepted exactly when it is non-empty and contains none of `/`, the two characters `\0`, `..` or a space; the empty name and the first forbidden entry found in list order are reported |
| DirManage.FirstContained | utils/dirmanage.py:51-55 | returns the first entry of the list that occurs in the name, or nothing exactly when none occurs |
| DirManage.NoForbiddenCharsPasses | utils/dirmanage.py:51-57 | a non-empty name without `/`, backslash, `.` or space is accepted and returned unchanged |
| DirManage.NulCharacterPasses | utils/dirmanage.py:42 | a name containing a real NUL character passes validation |
| DirManage.BackslashZeroRejected | utils/dirmanage.py:42 | a name containing a backslash followed by `0` is rejected, reporting that entry |
| DirManage.ReportsFirstInListOrder | utils/dirmanage.py:51-55 | in `a b/c` the reported substring is `/`, earlier in the list, not the space, earlier in the name |
| DirManage.ValidNameJoin | utils/dirmanage.py:61-62 | a validated name joins onto the root as one extra component, except `.`, which leaves the root itself |
| DirManage.EnsureSpec | utils/dirmanage.py:59-69 | the root is recorded exactly when one is found, and without one the result is the missing-root error; a creation failure happens only with a root and a valid name, and names the target `root / name`; on success the child is `root / name` and is a directory; an invalid name gives the validation error and leaves the filesystem unchanged, as does every error other than a creation failure; creation adds only directories on the path to `root / name` |
| DirManage.EnsureSucceeds | utils/dirmanage.py:59-69 | with a root found and a valid name, the call succeeds with `root / name` whenever `/` exists, `<root>/<name>` has no NUL byte and neither it nor any ancestor is a file |
| DirManage.EnsureIdempotent | utils/dirmanage.py:59-69 | calling it a second time with the same start and name yields the same root and child and leaves the filesystem unchanged |
| DirManage.SlashNameCreatesNothing | utils/dirmanage.py:60-65 | any name containing `/` is refused and leaves the filesystem unchanged; when a root is found the error is the validation error |
| DirManage.BuildOutScenario | utils/dirmanage.py:59-69 | in a tree holding `/tmp/proj/.git`, starting from `/tmp/proj` with the name `build-out` records `/tmp/proj` as root and creates exactly `/tmp/proj/build-out` |
| DirManage.DirManager.EnsureParentdirFromDirname | utils/dirmanage.py:59-69 | the manager's fields, the filesystem and the result are those given by `EnsureSpec` on the old filesystem; the parent directory field is untouched |
| GitLog.DecimalRoundTrip | code/run_git_log.py:45-46 | reading back the decimal spelling of a number gives the number |
| GitLog.ZeroPad2RoundTrip | code/run_git_log.py:54 | for 0..99 the zero-padded form has two digits that read back as the number |
| GitLog.IntToStringRoundTrip | code/run_git_log.py:81 | the decimal text of an integer parses back to it, including negatives |
| GitLog.OutputFilePath | code/run_git_log.py:54 | the output file is the numbered file name directly inside `<root>/.gitlog`, each name one path component |
| GitLog.OutputFileNameIndex | code/run_git_log.py:54 | the file name for an index below 100 carries that index; from 100 on it carries none |
| GitLog.NextIndexOf | code/run_git_log.py:39-49 | the next index is above every two-digit index present, at most 100, 0 exactly when none is present, and one more than an index present otherwise |
| GitLog.GlobTailIndex | code/run_git_log.py:41-46 | the glob, stem, prefix and tail checks accept a name exactly when it is `gitlog` + two digits + `.txt`, with the same value |
| GitLog.NextIndex | code/run_git_log.py:39-49 | the max loop over the listing returns `NextIndexOf` of the names, hence at most 100 and above every index present |
| GitLog.FreshOutputFileName | code/run_git_log.py:49-54 | below 100, the next file name is not among the existing names |
| GitLog.HundredIsReused | code/run_git_log.py:43-54 | with `gitlog99.txt` and `gitlog100.txt` both present the next index is still 100, so the name chosen is the existing `gitlog100.txt` |
| GitLog.RStripNewlines | code/run_git_log.py:60 | strips exactly the trailing carriage returns and newlines, leaving a prefix |
| GitLog.RestStartFields | code/run_git_log.py:61 | the text after the first whitespace-separated field and the whitespace after it splits into the remaining fields |
| GitLog.PreviewWithoutHashFirst | code/run_git_log.py:59-62 | with two or more fields the result is the rest after the first field, starting at a non-space, and it splits into the fields after the first; otherwise the line is returned with trailing newlines stripped |
| GitLog.BuildGitLogCmd | code/run_git_log.py:65-82 | the command starts with `git --no-pager log --no-color --pretty=<fmt>`, has one more argument per given option, ends in `-n` and `str(limit)` when a limit is given, and parses back to the options it was built from |
| GitLog.DefaultGitLogCmd | code/run_git_log.py:8-13 | with the module's settings the command has six arguments, the last being `--all` |
| OpenAiScript.RequireApiKey | core/run_open_ai.py:27-35 | a missing or empty key is an error; any other key is returned unchanged |
| OpenAiScript.ProjectRoot | core/run_open_ai.py:37-41 | the root is the grandparent of the start path, or of the module file when no start is given: two components shorter, or `/` when fewer than two components remain |
| OpenAiScript.GetJsonPath | core/run_open_ai.py:43-65 | each of the four errors is raised exactly when its check is the first to fail; success gives `<root>/source/<filename>`, an existing file |
| OpenAiScript.GetDefaultJsonPath | core/run_open_ai.py:43-65 | with the default file name, success holds exactly when `<root>/source` is a directory holding the file `default_question.json`, and returns that path |
| OpenAiScript.LoadMessages | core/run_open_ai.py:80-102 | the not-a-list error is raised exactly for a non-list; a list whose items are all objects with string `role` and `content` gives those pairs in order; otherwise the error names the first bad item by index; the empty list, and only it, gives the no-messages error |

## Left out

- Decoding JSON text: `LoadMessages` takes the decoded value. A decoding error becoming `ValueError` is not modelled. JSON numbers are integers.
- The OpenAI client and the chat request (`create_client`, `run_openai`): network I/O.
- Running `git` and writing the output file in `main`, and the printed previews with their length cuts: subprocess and console I/O.
- `config/enviroment.py`, `code/check.py` and logging are not part of this model.
- Reading the API key from the environment: the key is a parameter of `RequireApiKey`.
- `Path.resolve()`, symbolic links and `__file__`: paths are taken as absolute and already resolved. The start path and the module file are parameters. A relative start is not modelled.
- `str.isdigit` and `str.split` are restricted to ASCII digits and ASCII whitespace; Unicode digits and spaces are not modelled.
- `DirManage.ValidateDirname`: the branch for a non-string argument cannot occur, because the parameter is typed as a string.
- `FileSystems.MakeDir`: permission errors and other operating-system failures are not modelled; only a NUL byte, an existing path, a file on the way and a missing parent are.
- `OpenAiScript.GetJsonPath`: `..` segments in the file name are kept as components and never resolved against the parent.
- `GitLog.NextIndex`: the directory listing is a sequence of names passed in, in the order the glob yields them; the glob itself is modelled by `GitLog.MatchesGlob`.
