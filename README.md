# GitBags in Dafny

A Dafny model of the two GitBags scripts.

`gitlog2premis_sample.py` reads the `git log` of every path in a repository's index and turns it into a PREMIS v2 document. It works in three steps:

- It splits each log into lines on `"\n"` and each line into fields on `"||"`, and strips every field.
  For a line written by the `%H || %an || %ae || %ad || %s` format whose fields hold no `||` and have no whitespace at their ends, `GitLog.LineRoundTrip` shows that the hash becomes the key and `[name, email, date, subject]` the value.
- It stores each line's remaining fields under its commit hash, per path.
- It appends elements under one `premis` root: one `object` per tracked path, then one `event` per stored commit of each path, then one `agent` per author address. Which name each address gets is decided on the address's first sight in the event loop.

`create_gitbag_sample.py` chooses what the initial commit of a new GitBag stages:

- A light bag stages the four BagIt tag and manifest files of RFC 8493 (`bag-info.txt`, section 2.2.2; `bagit.txt`, section 2.1.1; `manifest-md5.txt`, section 2.1.3; `tagmanifest-md5.txt`, section 2.2.1).
- A full bag stages every walked path in which the text `.git` does not occur.

## Modules

| file | module | contents |
|---|---|---|
| wrappers.dfy | `Wrappers` | `Option` and `Result` |
| strings.dfy | `Strings` | Python 2 `str.split`, `str.count` and `str.strip`, and literal substring search (`re.search(r"\.git", …)`) |
| xml.dfy | `Xml` | The element tree that `createElementNS`, `createTextNode` and `appendChild` build, and reading text by a path of element names |
| gitlog.dfy | `GitLog` | A log line to a hash and its fields; a file's log to its history map; the `repo_history` loop |
| premis_records.dfy | `PremisRecords` | The `object`, `event` and `agent` elements with the scripts' own names, including the misspelt `linkingAgentdentifier` and `agentIdentifer`, plus readers that get the record values back |
| premis.dfy | `Premis` | The object, event and agent loops as methods, the functions that specify them, and `Transform` (the whole script) |
| premis_properties.dfy | `PremisProperties` | What the produced document contains, for every dictionary iteration order |
| gitbag.dfy | `GitBag` | `get_directory_contents` and the light/full staging choice |

### How the model is set up

- **Loops.** The loops are methods and are proved against specification functions:
  - `GitLog.ParseFileLog` is proved against `FileHistory`;
  - `Premis.EmitEvents` is proved against `Visits`, `Events` and `AgentTable`;
  - `GitBag.GetDirectoryContents` is proved against `DirectoryContents`.

  The properties of those functions are lemmas.
- **Dictionary order.** Python 2 dictionaries iterate in an unspecified order. The loops over `file_history` and over `agents` therefore pick their next key with `:|` and return the order they used as a ghost value. The document properties hold for every such order.
- **Errors.** A stored commit with fewer than four fields makes the event loop raise `IndexError`: `l[1]` raises first when there are fewer than two fields, and `l[3]` (read before `l[2]`) when there are two or three. The model returns `Failure(IndexError(path, hash))`, and `Transform` fails exactly when some stored commit of some tracked path has fewer than four fields.

### Where the code is followed

The model follows the code, not a cleaner reading of it, in three places:

- **Empty log.** An empty log is one empty line. Its one field, `""`, is popped as the hash, so the history holds `"" ↦ []` and the event loop raises. The model does the same, and `PremisProperties.EmptyLogIncomplete` proves it. The run is not treated as a file with no events.
- **Extra `||` in a subject.** A subject that itself contains `||` gives more than four fields. That does not raise: `l[3]` is the subject's text up to the extra separator. Only too few fields raise.
- **Moved `linkingObjectIdentifierType`.** This element is appended to the event and then to `linkingObjectIdentifier`. A DOM node has one parent, so the model builds the final tree, where it sits under `linkingObjectIdentifier` only.

## Model

| member | source | states |
|---|---|---|
| Strings.IndexOf | gitlog2premis_sample.py:45 | A found index is an occurrence of the separator |
| Strings.IndexOfSpec | gitlog2premis_sample.py:45 | The separator `split` cuts at is its leftmost occurrence, and `None` means it occurs nowhere |
| Strings.ContainsOccurs | create_gitbag_sample.py:27 | The substring test holds exactly when the pattern occurs at some index of the path |
| Strings.ContainsInfix | create_gitbag_sample.py:27 | An occurrence inside a string is still found once text is put on either side of it |
| Strings.SplitJoin | gitlog2premis_sample.py:43-45 | Joining the pieces of `split(sep)` with `sep` gives back the original string |
| Strings.SplitPartsFree | gitlog2premis_sample.py:43-45 | No piece of `split(sep)` contains `sep` |
| Strings.SplitWhole | gitlog2premis_sample.py:45 | A string without the separator splits into itself alone |
| Strings.SplitFirstPiece | gitlog2premis_sample.py:45 | A piece followed by the first occurrence of the separator is the first piece, and the rest is split on its own |
| Strings.PaddedFree | gitlog2premis_sample.py:41 | Whitespace put around a text creates no occurrence of a separator that has no whitespace at its ends |
| Strings.SplitCount | gitlog2premis_sample.py:45 | A string with k non-overlapping occurrences of the separator splits into exactly k + 1 pieces |
| Strings.StripSpec | gitlog2premis_sample.py:46 | `strip()` returns the slice between leading and trailing whitespace, and the result neither starts nor ends with whitespace |
| Strings.StripAround | gitlog2premis_sample.py:46 | Stripping whitespace put around a text that neither starts nor ends with whitespace gives that text back |
| Strings.StripIdempotent | gitlog2premis_sample.py:46 | Stripping a stripped field changes nothing |
| GitLog.LogLines | gitlog2premis_sample.py:43 | A log with k newlines has k + 1 lines |
| GitLog.ParseFields | gitlog2premis_sample.py:45-46 | A line with k occurrences of the two-bar field separator has k + 1 fields, and field i is piece i of the split, stripped |
| GitLog.ParseLine | gitlog2premis_sample.py:47 | After the hash is popped, as many fields remain as the line has separators |
| GitLog.ParseLineFields | gitlog2premis_sample.py:45-48 | The key is the stripped first piece, and stored field j is the stripped piece j + 1, in order |
| GitLog.FormatCommit | gitlog2premis_sample.py:41 | Writing the five fields of a commit with the format gives `%H || %an || %ae || %ad || %s` |
| GitLog.SplitFormatted | gitlog2premis_sample.py:41-46 | A written line, after any leading whitespace, splits into one piece per field, and each piece strips back to its field |
| GitLog.FieldsRoundTrip | gitlog2premis_sample.py:41-46 | Parsing a line written from fields that hold no `||` and have no whitespace at their ends gives back those fields |
| GitLog.LineRoundTrip | gitlog2premis_sample.py:41-48 | A line `%H || %an || %ae || %ad || %s` is stored under its hash as `[name, email, date, subject]`, so `l[0]` is the author's name and `l[1]` the address |
| GitLog.HistoryKeys | gitlog2premis_sample.py:44-48 | The history is keyed by exactly the hashes of the log's lines |
| GitLog.HistoryLastWins | gitlog2premis_sample.py:44-48 | A line whose hash does not come back later is the one whose fields are stored under that hash |
| GitLog.HistoryValueSource | gitlog2premis_sample.py:44-48 | Every stored value is the fields of the last line with that hash |
| GitLog.HistorySize | gitlog2premis_sample.py:44-48 | A file's history has one entry per distinct commit hash in its log |
| GitLog.EmptyLogHistory | gitlog2premis_sample.py:43-48 | An empty log yields the single entry `"" ↦ []` |
| GitLog.ParseFileLog | gitlog2premis_sample.py:43-48 | The per-file loop leaves exactly the history of the log lines read in order |
| GitLog.RepoHistorySnoc | gitlog2premis_sample.py:49 | Reading one more path adds its history under its own name and leaves the other entries unchanged |
| GitLog.BuildRepoHistory | gitlog2premis_sample.py:36-49 | `repo_history` is keyed by exactly the tracked paths, and each value is that path's history |
| PremisRecords.ObjectIdentifierValues | gitlog2premis_sample.py:60-69 | The object's identifier type is `URI` and its value is the path |
| PremisRecords.ObjectFixityValues | gitlog2premis_sample.py:71-84 | The fixity algorithm is `MD5` and the digest is the one given for the path string |
| PremisRecords.ObjectRoundTrip | gitlog2premis_sample.py:56-84 | Reading an `object` back gives (`URI`, path, `MD5`, digest of the path) |
| PremisRecords.EventIdentifierValues | gitlog2premis_sample.py:99-108 | The event identifier is of type `SHA-1`, with the commit hash as its value |
| PremisRecords.EventTextValues | gitlog2premis_sample.py:110-116 | The event type is `Git commit` and the detail is the subject `l[3]` |
| PremisRecords.EventDateValue | gitlog2premis_sample.py:118-120 | The event date-time is `l[2]` |
| PremisRecords.EventObjectLinkValues | gitlog2premis_sample.py:122-132 | The event links to its file by URI, with the value being the path |
| PremisRecords.EventAgentLinkValues | gitlog2premis_sample.py:134-143 | The event links to its agent by email address, with the value `l[1]` |
| PremisRecords.EventRoundTrip | gitlog2premis_sample.py:96-143 | Reading an `event` back gives all nine values the script writes into it |
| PremisRecords.EventTypeReparented | gitlog2premis_sample.py:125-128 | The moved `linkingObjectIdentifierType` is no longer a child of the event |
| PremisRecords.AgentRoundTrip | gitlog2premis_sample.py:147-163 | Reading an `agent` back gives (`Email address`, email, name) |
| Premis.EnumerationSize | gitlog2premis_sample.py:146 | An iteration over a dictionary visits as many keys as the dictionary has |
| Premis.AgentTableSnoc | gitlog2premis_sample.py:93-94 | One iteration adds `l[1] ↦ l[0]` to the author table only when `l[1]` is not a key yet |
| Premis.EmitObjects | gitlog2premis_sample.py:56-84 | The object loop yields one `object` per index entry, in index order |
| Premis.FileLoopStep | gitlog2premis_sample.py:91-143 | One inner iteration moves one key from remaining to visited, appends its event and updates the author table by first sight |
| Premis.EmitFileEvents | gitlog2premis_sample.py:91-143 | It succeeds exactly when every commit of the file has four fields, and names the offending commit otherwise. On success it visits every key once and leaves the events and author table of those visits |
| Premis.EmitEvents | gitlog2premis_sample.py:89-143 | It succeeds exactly when every stored commit of every tracked path has four fields. On success the events and author table are those of all visits, file by file |
| Premis.EmitAgents | gitlog2premis_sample.py:146-163 | There is one `agent` per author-table key, each key once, with the stored name |
| Premis.Transform | gitlog2premis_sample.py:35-163 | The run succeeds exactly when every stored commit has four fields. It then returns the `premis` root of objects, events and agents; otherwise it names a tracked path and a stored commit of it with fewer than four fields |
| PremisProperties.VisitsMembers | gitlog2premis_sample.py:90-91 | The event loop visits every stored (path, commit) pair of every tracked path and nothing else |
| PremisProperties.EmptyLogIncomplete | gitlog2premis_sample.py:43-94 | A tracked path with an empty log makes the run fail |
| PremisProperties.VisitsComplete | gitlog2premis_sample.py:90-143 | Every visit has four fields exactly when every stored commit does |
| PremisProperties.VisitsCount | gitlog2premis_sample.py:90-97 | The number of events is the total number of stored commits over all index entries |
| PremisProperties.PathEventCount | gitlog2premis_sample.py:90-97 | The events of a path number its history size times the number of index entries for it |
| PremisProperties.FileEventCount | gitlog2premis_sample.py:44-48 | A path's event count is the number of distinct hashes in its log, times its index entries |
| PremisProperties.AgentTableKeys | gitlog2premis_sample.py:89-94 | The author table is keyed by exactly the addresses `l[1]` the loop saw |
| PremisProperties.AgentFirstSeen | gitlog2premis_sample.py:93-94 | The name stored for an address is `l[0]` of the first visit with that address |
| PremisProperties.AgentTableStable | gitlog2premis_sample.py:93-94 | Later visits never change or remove an entry of the author table |
| PremisProperties.TableEmailsAuthored | gitlog2premis_sample.py:89-94 | Every author-table key is the address of some stored commit |
| PremisProperties.AuthoredEmailsInTable | gitlog2premis_sample.py:89-94 | The address of every stored commit is an author-table key |
| PremisProperties.AgentTableEmails | gitlog2premis_sample.py:89-94 | The author table's keys are exactly the addresses of all stored commits of all tracked paths |
| PremisProperties.DocumentLayout | gitlog2premis_sample.py:51-148 | The root is `premis` in the PREMIS v2 namespace. Its children are one `object` per index entry, one `event` per stored commit and one `agent` per distinct address, with objects before events before agents |
| PremisProperties.ObjectsRecords | gitlog2premis_sample.py:56-84 | Object i reads back as (`URI`, `files[i]`, `MD5`, md5 of `files[i]`) |
| PremisProperties.AgentsRecords | gitlog2premis_sample.py:146-163 | Agent i reads back as the i-th iterated address with its stored name |
| PremisProperties.DocumentObjects | gitlog2premis_sample.py:56-84 | The first children of the root are the object records of the index entries, in order |
| PremisProperties.DocumentEvents | gitlog2premis_sample.py:90-143 | After the objects, event i carries the hash, subject, date, path and address of visit i |
| PremisProperties.DocumentAgents | gitlog2premis_sample.py:146-163 | After the events, agent i pairs the i-th iterated address with the name the table stores for it |
| PremisProperties.DocumentLinks | gitlog2premis_sample.py:122-163 | Every event links to a tracked path and to an address that has an agent record, and no address has two agent records |
| GitBag.PathJoinShape | create_gitbag_sample.py:25 | `os.path.join`: an absolute name replaces the directory; otherwise the name follows the directory, with one `/` added unless it already ends in one |
| GitBag.PathJoinContains | create_gitbag_sample.py:25-27 | `.git` in the name, or in the directory of a relative name, is in the joined path |
| GitBag.GetDirectoryContents | create_gitbag_sample.py:20-30 | The nested loops return exactly the walked joins without `.git`, in walk order |
| GitBag.KeptConcat | create_gitbag_sample.py:26-28 | Filtering two path lists one after the other is filtering their concatenation |
| GitBag.KeptMembers | create_gitbag_sample.py:27-28 | A path is kept exactly when it was walked and `.git` does not occur in it |
| GitBag.KeptOrder | create_gitbag_sample.py:27-28 | The kept paths occur in the walked list at increasing positions, and there are never more of them |
| GitBag.WalkedConcat | create_gitbag_sample.py:23-25 | Walking one walk after another lists the first walk's paths, then the second's |
| GitBag.WalkedMembers | create_gitbag_sample.py:23-25 | The walked paths are exactly the joins of a directory with one of its file names |
| GitBag.WalkedLength | create_gitbag_sample.py:23-24 | There is one walked path per reported file name |
| GitBag.DirectoryContentsSound | create_gitbag_sample.py:23-28 | Every returned path lacks `.git` and is the join of a walked directory with one of its names |
| GitBag.DirectoryContentsComplete | create_gitbag_sample.py:23-28 | Every walked join without `.git` is returned |
| GitBag.DirectoryContentsOrder | create_gitbag_sample.py:22-30 | The result follows walk order, directory by directory and within each file by file, and is never longer than the number of walked files |
| GitBag.GitNamesDropped | create_gitbag_sample.py:25-28 | `.gitignore`-like names, and every relative name under a directory whose path holds `.git`, are dropped |
| GitBag.StageInitialCommit | create_gitbag_sample.py:51-60 | A light bag stages exactly the four tag and manifest names, a full bag exactly `get_directory_contents`, and the commit message is `Initial commit.` |

## Left out

- GitPython is not modelled. The script relies on it for the following; each is turned into an input or returned as a value:
  - `repo.index.entries` becomes the sequence of index paths `files`. Only `file[0]` is used, so the stage number is dropped.
  - `git.log(...)` becomes the parameter `gitLog` from a path to its log text.
  - `Repo.init`, `index.add` and `index.commit` are not called: `StageInitialCommit` returns the list to stage and the commit message.
- `bagit.make_bag` is left out: it writes bag files outside the logic modelled here.
- `hashlib.md5(...).hexdigest()` becomes the parameter `md5` over the path string. The digest algorithm itself is not modelled.
- `toprettyxml` and `print` are left out: serialisation is not modelled, the model stops at the element tree. `createElementNS` records the namespace on each element, and no namespace declaration is written.
- The command line is left out: argument parsing, the `os.path.exists` check and `sys.exit`.
- `os.walk` is left out: the walk is an input sequence of (directory, file names) steps in the order the walk yields them, and sub-folder names are not used.
- The order of Python 2 dictionaries is not fixed. Loop orders are chosen nondeterministically and returned as ghost values, and the properties hold for every order.
- `re.search` is modelled only for the one literal pattern the script uses. `\.git` matches the text `.git`, with no other regular-expression features.
- Strings are sequences of characters. Python 2 byte strings and encodings are not modelled, and `strip()` removes the six ASCII whitespace characters.
- DOM re-parenting is modelled by its final tree only (the moved `linkingObjectIdentifierType`).
