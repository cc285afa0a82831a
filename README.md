# indico-build-tools, the logic of the deployment scripts, in Dafny

This project models the decision logic of three Indico deployment scripts and
proves what they do.

- **update-lb.py** sets servers behind a cluster of HAProxy load balancers to
  `ready`, `drain` or `maint`. It reads each balancer's CSV status feed
  (`_get_stats`). It folds the feeds into a server × balancer status matrix and
  checks that each balancer reports a single backend instance id
  (`_dump_stats`). It styles each cell by status (`_format_cell`) and resolves
  the server names the operator typed (`_resolve_servers`). It posts one form
  per balancer (`_update_state`). `main` asks for confirmation before draining
  or stopping every server.
- **fabfile.py** holds the Fabric configuration: the `env` object, the
  per-host property tree that `process_node_properties` builds, the per-host
  lookup of `HostPropertyProxy`, `load_cluster`, the path rule of
  `with_virtualenv`, and `print_node_properties`.
- **reload-indico.py** validates its flags and restarts the Celery units. It
  then touches the uWSGI file and polls the site until two requests in a row
  come back without an exception, printing each attempt with an `mm:ss`
  timestamp.

Modules:

- `Wrappers`: `Option` and `Result`. A Python exception or `sys.exit(1)` is a
  `Failure`.
- `Text`: the parts of Python the scripts rely on.
  - Ordering of `str` values by character, a proper prefix first.
  - Sorting by a key, and sorting a set into a strictly increasing sequence.
  - The substring test, `str.join`, and `str(n)` / `'{:02}'` rendering.
- `HaproxyStats`: `_get_stats`, on rows already parsed into maps from column
  to cell. A missing column raises `KeyError` in Python. Here it is
  `Failure(column)`, in the order Python reads the columns.
- `StatusMatrix`: `_dump_stats` and `_format_cell`.
  - The network is an input: `feeds[i]` is what fetching balancer `lbs[i]`
    returned.
  - The inner `OrderedDict` is an association list.
  - A table row holds only the cells of the balancers that reported that
    server, in balancer order, as the code builds it.
- `NameResolver`: `_resolve_servers`, as a specification function and as the
  loop over the requested names.
- `UpdateLb`: `_update_state` and `main`.
  - Console notices and POST payloads are an output log.
  - The two status reads are inputs.
  - The operator's answer to the prompt is a parameter.
- `Fabfile`: `env` is the class `Env`. Its fields are the attributes, the host
  property tree and the current host, and its methods update them as the
  functions update `env`.
- `ReloadIndico`: the flag checks, the Celery loop and the `num_ok` polling
  loop.
  - Each HTTP attempt is an input, together with the whole, non-negative
    seconds elapsed.
  - Restarts and the touch are log entries.

Each loop of the source is a method proved equal to a specification function.
The lemmas state the properties of those functions.

## Model

| member | source | states |
|---|---|---|
| Text.SortBy | update-lb.py:55 | `sorted(rows, key=...)` returns a permutation of its input (equal multisets) that is ordered by the key |
| Text.SortedElements | update-lb.py:84 | Sorting a set of names gives each element exactly once, in strictly increasing order, and nothing else |
| Text.LessTrichotomy | update-lb.py:84 | Two different strings are ordered one way or the other |
| Text.LessTransitive | update-lb.py:55 | String order is transitive |
| Text.LessAsymmetric | update-lb.py:55 | String order is asymmetric |
| Text.LessIrreflexive | update-lb.py:84 | No string is less than itself |
| Text.ContainsMeansOccurs | update-lb.py:98 | `name in x` holds exactly when `name` occurs in `x` at some offset |
| Text.DecimalRoundTrip | reload-indico.py:66 | `str(n)` is a non-empty run of digits that reads back to `n` |
| Text.ZeroPad2RoundTrip | reload-indico.py:70 | `'{:02}'.format(n)` is at least two digits, exactly two below 100, and reads back to `n` |
| HaproxyStats.StripHeaderMarker | update-lb.py:48 | The feed loses a leading `# ` exactly when it starts with one, and nothing else |
| HaproxyStats.StripHeaderMarkerRoundTrip | update-lb.py:48 | A prefixed marker is removed |
| HaproxyStats.StripHeaderMarkerKeepsLaterLines | update-lb.py:48 | Without the multiline flag, a marker at the head of a later line stays |
| HaproxyStats.Keep | update-lb.py:56 | The filter is true exactly for a server row of the backend that is not a backup. It fails exactly when a column it reads in its short-circuit order (`type`, then `pxname`, then `bck`) is missing, and the error names the first one missing |
| HaproxyStats.Project | update-lb.py:51-54 | A projected record carries exactly the row's `svname`, `status`, `check_status` and `iid`. It fails exactly when one of them is missing, and the error names the first one missing in that order |
| HaproxyStats.GetStats | update-lb.py:44-56 | The result is sorted by `svname` and is a permutation of the reference selection. It succeeds exactly when every row has `svname` and every column the filter and, for a kept row, the projection read. A row without `svname` fails the sort. Any other failure names a column some row lacks |
| HaproxyStats.GetStatsSelectsExactly | update-lb.py:56 | A record comes out exactly when some row is a kept server row of the backend and projects to it, whatever the other rows hold |
| HaproxyStats.SortedSelectFacts | update-lb.py:51-56 | Evaluating the comprehension over the sorted rows yields sorted records with the reference multiset |
| HaproxyStats.SelectMeansExpected | update-lb.py:51-56 | When the comprehension succeeds, it equals the reference selection in row order |
| HaproxyStats.SelectSucceeds | update-lb.py:51-56 | The comprehension succeeds exactly when every row has the columns it reads, and a failure names a column some row lacks |
| HaproxyStats.ExpectedAppend | update-lb.py:51-56 | The selection of concatenated rows is the concatenation of the selections |
| HaproxyStats.ExpectedPermutation | update-lb.py:55 | Reordering the rows does not change the multiset of selected records |
| HaproxyStats.ExpectedMembers | update-lb.py:56 | Membership in the selection, by row index |
| HaproxyStats.ExpectedSorted | update-lb.py:55-56 | Filtering rows sorted by `svname` keeps them sorted |
| StatusMatrix.Emphasize | update-lb.py:61-72 | Six classes, each with its if-and-only-if condition. Exact `UP` is green bold, another `UP…` green, `DRAIN` yellow, `MAINT` yellow bold, `DOWN` red bold, anything else red |
| StatusMatrix.FormatCell | update-lb.py:60-75 | The cell has the status's emphasis. Its text is the bare status exactly when `check_status` is empty, and otherwise `status (check_status)` |
| StatusMatrix.AggregateIsMerge | update-lb.py:80-83 | A round fails when any fetch or parse fails. Otherwise it is the fold of the fetched records |
| StatusMatrix.AddEntriesIids | update-lb.py:81-82 | One balancer's records fold in exactly when their iids agree with each other and with a recorded id. The ids become the `setdefault` record |
| StatusMatrix.MergeIids | update-lb.py:80-82 | All balancers' records fold in exactly when all (balancer, iid) pairs are consistent, and the ids are then the `setdefault` record |
| StatusMatrix.MergeIidsByIndex | update-lb.py:80-83 | A round succeeds if and only if every balancer reports one iid for all its records, and that iid is then recorded for the balancer |
| StatusMatrix.RecordOfConsistent | update-lb.py:82 | With consistent pairs, `setdefault` keeps earlier ids, adds exactly the balancers seen, and records every pair's id |
| StatusMatrix.MergeRecordedIids | update-lb.py:82 | Every record's iid is the id recorded for its balancer |
| StatusMatrix.ConsistentCons | update-lb.py:82 | The assertion passes for a pair followed by more pairs exactly when it passes for the first pair and then for the rest |
| StatusMatrix.ConsistentAppend | update-lb.py:82 | The assertion passes on two runs of pairs exactly when it passes on the first run and then on the second |
| StatusMatrix.RecordAppend | update-lb.py:82 | Recording ids over two runs of pairs is recording the first run, then the second |
| StatusMatrix.PairsOfMembers | update-lb.py:81-82 | The pairs of one balancer are its records' iids, by index |
| StatusMatrix.PairsMembers | update-lb.py:80-82 | The pairs of a round are each balancer's records' iids, by index |
| StatusMatrix.PutAppends | update-lb.py:83 | `od[lb] = rec` with a new key appends the entry |
| StatusMatrix.PutReplacesInPlace | update-lb.py:83 | `od[lb] = rec` with an existing key, at any position, replaces that value and keeps every entry before and after it in place |
| StatusMatrix.LbsOfAppend | update-lb.py:83 | The keys of two concatenated entry lists are the two key lists concatenated |
| StatusMatrix.LastWithSnoc | update-lb.py:81-83 | A balancer's last record for a server, once one more record is added |
| StatusMatrix.AddOneCell | update-lb.py:83 | One assignment changes only the row of its server, and keeps that row equal to the balancer's last record for it |
| StatusMatrix.AddEntriesRow | update-lb.py:81-83 | After one balancer's loop, a server's row is the earlier row plus that balancer's last record for the server, if any |
| StatusMatrix.AddEntriesNonEmpty | update-lb.py:83 | No server ever has an empty row |
| StatusMatrix.AddEntriesCells | update-lb.py:81-83 | The per-server statement of `AddEntriesRow`, for every server at once |
| StatusMatrix.MergeFirst | update-lb.py:80-83 | Folding the first balancer appends its cells and leaves the remaining balancers absent from every row |
| StatusMatrix.MergeCells | update-lb.py:80-83 | After the round, with distinct balancers, each row is the reference row: the reporting balancers in `lbs` order |
| StatusMatrix.MatrixRows | update-lb.py:80-85 | A server has a row exactly when some balancer reported it, and the row is the reference row |
| StatusMatrix.RowRefLookup | update-lb.py:83-85 | Cell `[svname][lb]` is the record `lb` reported last for that server |
| StatusMatrix.RowRefMissing | update-lb.py:83-85 | A balancer outside the list has no cell |
| StatusMatrix.FormatCells | update-lb.py:85 | One formatted cell per entry, in order |
| StatusMatrix.RowsForAt | update-lb.py:84-85 | One table row per name, row `k` for name `k` |
| StatusMatrix.RenderRows | update-lb.py:77-85 | The header is `Server` then the balancers. The table has one row per server, in strictly increasing name order, and a name is a row exactly when it is a server. Each row holds its server's formatted cells |
| StatusMatrix.RenderServers | update-lb.py:84-85 | Row order and row content of the table, by index |
| StatusMatrix.RenderFinds | update-lb.py:84-85 | Every server has a row |
| StatusMatrix.FormatRows | update-lb.py:84-85 | The loop over the sorted items builds exactly the reference rows |
| StatusMatrix.BuildTable | update-lb.py:77-86 | The table built is the rendering of the matrix |
| StatusMatrix.DumpStats | update-lb.py:59-87 | The nested loops succeed exactly when the round succeeds, fail with the round's error, and return the matrix, the ids and the rendered table |
| NameResolver.Candidates | update-lb.py:98 | The candidates are exactly the available names in which the token occurs at some offset |
| NameResolver.SingletonUnique | update-lb.py:99-100 | A one-element candidate list has a single name to take |
| NameResolver.ResolveToken | update-lb.py:95-106 | An exact name wins. Otherwise a token succeeds exactly with one candidate, and that candidate is the result. It is `Invalid` exactly with none and `Ambiguous` exactly with two or more |
| NameResolver.ResolveServers | update-lb.py:90-107 | The loop returns the specification's result: all names sorted with flag true for no tokens, else the sorted resolutions or the first error |
| NameResolver.ResolveAllExactly | update-lb.py:94-100 | When resolution succeeds, every token resolved and the result is exactly their resolutions |
| NameResolver.ResolveAllFirstError | update-lb.py:94-106 | Resolution fails with an error if and only if that is the error of the first token that does not resolve |
| NameResolver.ResolveNamed | update-lb.py:93-107 | With tokens, the flag is false and the names are a strictly increasing subset of the available ones. They are exactly the token resolutions and contain each token's resolution |
| NameResolver.ResolveEmpty | update-lb.py:91-92 | No tokens select every available name, sorted, with flag true |
| NameResolver.NamingAllIsNotAll | update-lb.py:107 | Naming every server gives all names with flag false |
| NameResolver.ResolveAllSucceeds | update-lb.py:94-96 | Tokens that are all server names resolve |
| NameResolver.ExactBeatsSubstring | update-lb.py:95-96 | `web1` selects `web1` even though `web10` contains it |
| NameResolver.AmbiguousExample | update-lb.py:104-106 | `web` against `web1` and `web2` is ambiguous |
| UpdateLb.Action | update-lb.py:117 | The form's `action` is one of `ready`, `drain`, `maint` |
| UpdateLb.EmitNotices | update-lb.py:113-116 | The inner loop prints one notice per server, in order |
| UpdateLb.UpdateTraceStep | update-lb.py:112-119 | One balancer's step: its notices, then a post or the `KeyError` |
| UpdateLb.UpdateState | update-lb.py:110-119 | The loop produces exactly the reference log and the balancer without an id, if any |
| UpdateLb.FirstMissing | update-lb.py:117 | The first balancer without a recorded id: all before it have one |
| UpdateLb.PostsOfAppend | update-lb.py:118-119 | The posts of two concatenated logs are the two post lists concatenated |
| UpdateLb.NoticesHaveNoPosts | update-lb.py:113-116 | Notices hold no posts, one per server |
| UpdateLb.UpdatePosts | update-lb.py:112-119 | There is one post per balancer in `lbs` order, with `s = servers`, `b = '#' + iids[lb]` and `action = state`, up to the first balancer without an id, where the run stops |
| UpdateLb.OnePostPerBalancer | update-lb.py:112-119 | When every balancer has an id, each gets exactly one post and nothing fails |
| UpdateLb.NeedsConfirmation | update-lb.py:138 | The prompt condition holds if and only if the wire state is not `ready` and the all-servers flag is set |
| UpdateLb.Balancers | update-lb.py:132 | The balancers in sorted order: a permutation of the configured ones |
| UpdateLb.Run | update-lb.py:128-144 | The warning shows exactly for names without a state. The current table is shown when the read succeeds. The prompt comes exactly under the gate. Posts are sent only when the update goes ahead. Exit is 0 exactly on full success. The new table is shown exactly when a state was requested and the run exits with 0, and it renders the second read |
| UpdateLb.NothingSentWithoutGoAhead | update-lb.py:137-141 | An unresolved name or a declined prompt sends nothing |
| UpdateLb.PromptOnlyForBulk | update-lb.py:137-138 | Named servers never prompt. No names prompt exactly for a non-ready state |
| Fabfile.Admit | fabfile.py:51-57 | A bare name stores an empty map. A mapping stores itself without `hostname`, under its `hostname`. It fails exactly when `hostname` is absent or not text |
| Fabfile.Property | fabfile.py:24 | The host's own value when it has the key. Otherwise the `env` attribute, or `None` |
| Fabfile.Setting | fabfile.py:71-74 | The cluster's value when present, else `env`'s. It fails exactly when the `env` default is unset |
| Fabfile.JoinPath | fabfile.py:89 | `posixpath.join` of two parts: an absolute second part replaces the path. A first part that is empty or ends in `/` is followed directly by the second. Otherwise one `/` goes between them |
| Fabfile.Env.constructor | fabfile.py:41-42 | A fresh `env` has the given attributes and an empty property tree |
| Fabfile.Env.ProcessNodeProperties | fabfile.py:47-59 | The loop leaves the tree and host list of the reference fold. It stops at the first bad member, keeping the entries already written |
| Fabfile.Env.LoadCluster | fabfile.py:62-78 | The new attributes and tree are those of the reference load, assignment by assignment, including those made before a failure |
| Fabfile.Env.VirtualenvPath | fabfile.py:88-91 | A missing `env.virtualenv` fails. `''` when it is falsy. Otherwise it succeeds exactly when the host's virtualenv is a string, and the path is that virtualenv joined with the element and then with `''` |
| Fabfile.Env.PrintNodeProperties | fabfile.py:100-112 | A host in the tree gets `hostname` written into its own map. The lines are the listing of that map over `ALL_PROPERTIES` |
| Fabfile.ListProperties | fabfile.py:104-112 | The loop prints one line per key, in order, with the value looked up as the reference does |
| Fabfile.AbsorbHosts | fabfile.py:47-59 | The fold succeeds exactly when every member is admissible, and then returns one host per member, in input order |
| Fabfile.AbsorbKeepsOthers | fabfile.py:50-57 | A host no member names keeps its entry, or stays absent |
| Fabfile.AbsorbStoresLast | fabfile.py:50-57 | A host maps to the properties of its last member |
| Fabfile.LookupAfterAbsorb | fabfile.py:24-57 | After the fold, a host's lookup returns its last member's value for the key, else `env`'s, else `None` |
| Fabfile.PlainMemberUsesDefaults | fabfile.py:24-57 | A bare host name sees only `env` values |
| Fabfile.AdmitDropsHostname | fabfile.py:52-53 | `hostname` is never a stored property |
| Fabfile.PluginSetIsUnion | fabfile.py:75-77 | `plugins` is the set union of the base list (the cluster's, else `env`'s) and the extra list |
| Fabfile.LoadSettingsValues | fabfile.py:71-77 | `branch`, `remote`, `py_version` and `virtualenv` come from the cluster if present, else from `env`. The two plugin sets are set, and every other attribute is kept |
| Fabfile.LoadClusterSettings | fabfile.py:70-78 | A successful load sets the settings, `hosts` (one per machine, in order) and the tree from `machines` |
| Fabfile.LoadClusterEarlyErrors | fabfile.py:68-78 | A cluster absent from the file changes nothing. A cluster without `machines` still leaves the settings assigned |
| Fabfile.VirtualenvPathShape | fabfile.py:88-89 | With `env.virtualenv` set and a host virtualenv `venv`, `with_virtualenv` passes `venv/elem/` for a plain relative element and `venv/` for the default empty one |
| Fabfile.VirtualenvPathEndsInSeparator | fabfile.py:90-93 | A non-empty virtualenv path always ends in a separator |
| Fabfile.PropertyLinesAt | fabfile.py:104-112 | One line per key, line `i` for key `i` |
| Fabfile.PrintedLines | fabfile.py:101-112 | There are seven lines in `ALL_PROPERTIES` order. The `hostname` line is the host itself. A host value overrides `env`, which overrides `None` |
| ReloadIndico.StopPoint | reload-indico.py:54 | The attempts the loop makes lie between the starting point and the end of the input |
| ReloadIndico.WaitForResponses | reload-indico.py:53-77 | The loop uses exactly the attempts up to the stop point, ends with `num_ok` equal to the streak, and prints one line per attempt |
| ReloadIndico.StreakSteps | reload-indico.py:56-68 | A timeout or request error resets `num_ok` to 0. Any response adds one, whatever its code |
| ReloadIndico.StreakMeansTrailingResponses | reload-indico.py:53-68 | `num_ok >= k` exactly when the last `k` attempts were responses |
| ReloadIndico.PairEndsStreak | reload-indico.py:54 | Two consecutive responses bring `num_ok` to 2 |
| ReloadIndico.StopsAtFirstPair | reload-indico.py:54 | The loop stops exactly after the first two consecutive responses. Without such a pair it uses every attempt |
| ReloadIndico.StopPointEarlier | reload-indico.py:54 | Before the stop point `num_ok` stays below 2 |
| ReloadIndico.TwoErrorPagesEndTheWait | reload-indico.py:54-68 | Two error pages (502, 503) end the wait as well |
| ReloadIndico.PollLine | reload-indico.py:67-77 | Each attempt prints one poll line, green exactly for code 200 |
| ReloadIndico.DelayPrettyRoundTrip | reload-indico.py:69-70 | The delay is two-digit minutes, `:`, two-digit seconds below 60. It reads back to the delay and is five characters below 100 minutes |
| ReloadIndico.FlagChecksInOrder | reload-indico.py:31-39 | Each message if and only if its check fails and the earlier checks pass. No message exactly when the flags are valid |
| ReloadIndico.RestartUnits | reload-indico.py:41-44 | The loop logs and restarts each unit in order |
| ReloadIndico.RestartLogShape | reload-indico.py:42-44 | Two log entries per unit: the notice, then the restart |
| ReloadIndico.RestartsBeforeTouch | reload-indico.py:41-48 | Each unit is restarted once, in the listed order, before the touch |
| ReloadIndico.Reload | reload-indico.py:28-79 | A failed check exits 1 with its message only, before any restart or touch. Otherwise the restarts come, then the touch and poll lines, then `Done` with exit 0 once two responses came |

## Left out

- HTTP through `requests`, authentication and URL building with `DOMAIN`: the fetched rows are inputs, and the posts are output log entries.
- The `csv.DictReader` parse and splitting the feed into lines: rows are given as maps.
- YAML loading, `execfile` of `config.py` and `config.sample.py`: the configuration is given as values.
- Terminal colours and tables (`cformat`, `click.style`, `AsciiTable`): the emphasis of a cell is an enumeration, and the table is a value.
- Console output that carries no logic (blank lines, the colour of notices) is not logged.
- The Fabric tasks that run commands (fabfile.py:117-339) and `__getitem__` of `HostPropertyProxy`, which is the same lookup as `__getattr__`.
- The prompt in `load_cluster` for a cluster that is not in the file (fabfile.py:80-83): that case is the error `UnknownCluster`, with nothing changed.
- The answer to `click.confirm` is a parameter, and a declined prompt is exit status 1.
- systemd, `os.utime`, `time.sleep`, `socket.getfqdn` and the clock: the host name and each attempt's elapsed seconds are inputs. Restarts and the touch are log entries.
- The regular expression that reports the render duration (reload-indico.py:73-75).
- An input that runs out of attempts before two responses arrive ends in `StillPolling`. The real loop keeps polling.
- Fabfile.Admit: a `hostname` that is not a string would be stored by Python as it is. The model refuses it as `NotText`, because host names are strings here.
- Fabfile.Env.VirtualenvPath: a host-level `virtualenv` that is not a string fails as `NotText`. Python would raise a different `TypeError` or `AttributeError`.
- Values in `env` and in the cluster file are limited to strings, booleans, integers, and lists and sets of strings.
- Text.SortBy: does not state that the sort is stable. Rows with equal `svname` may come out in any order between themselves.
- UpdateLb.Run: a `requests.post` that raises (connection refused, timeout) is not modelled. Every post is taken to succeed. In Python such a post stops the remaining posts, skips the "New status" read and exits with status 1. The same holds for UpdateLb.UpdateState.
- ReloadIndico.FlagError: `_get_celery_units` is taken to return a list, as Python 2's `map` does. Under Python 3 the `map` object is always truthy, so the "No celery systemd units found" check would never fire.
- StatusMatrix.MatrixRows: assumes the configured balancer names are distinct, which `CLUSTERS[cluster]['servers']` does not guarantee. No row theorem covers a repeated name.
- StatusMatrix.RowRefLookup: assumes the configured balancer names (`CLUSTERS[cluster]['servers']`) are distinct, so that each balancer's cell is found under its own name.
- ReloadIndico.Probe: the elapsed seconds are assumed non-negative. A wall clock that steps back gives Python a negative `delay`, printed through floor `//` and `%` (for example `-1:55`). The model cannot express that.
- StatusMatrix.MergeCells: the row theorem assumes the configured balancer names (`CLUSTERS[cluster]['servers']`) are distinct. A repeated balancer name is folded in twice, as the code does, but no row theorem covers it.
