# unifi-golang-test: the decision logic of the command, in Dafny

`unifi-golang-test` is a small Go command-line client for the UniFi cloud
API. It validates an `--action` name against a static registry of operations
and an `--interval` value against an allow-list. It then issues one HTTP GET,
classifies the response status, and for the `GetDevices` action turns the
decoded device listing into a count and a numbered table. In debug mode it
first sorts the registry by name.

This project models that decision logic as pure functions over immutable
datatypes. The HTTP, flag-parsing, JSON and printing plumbing is left out.
Every way the process can end is a value of `Cli.Exit`:
`Ok(report)`, `Help`, or `Exit1(reason)`.

Modules, following the program's structure:

- `Text` (`text.dfy`): ASCII case folding, standing in for `strings.ToLower`, and Go's `<` order on strings, with its order lemmas.
- `Registry` (`registry.dfy`): the operation registry, `checkAction`, the index search of `main`, and `checkInterval`.
- `DebugSort` (`sorting.dfy`): the debug-mode `sort.Slice` by name, and what it preserves.
- `Devices` (`devices.dfy`): the device-listing response shape and the two folds over it, the count and the numbered rows.
- `Cli` (`cli.dfy`): `callAPI`'s status test, the result switch, `main`, `init`, and the whole program.

The network is a parameter `server: (url, method) -> HttpOutcome`, and JSON
decoding is a parameter `unmarshal: body -> Decoded`. So every statement about
a run holds for every network behaviour and every decoder.

Details of the code that the model keeps as they are:

- The table header says `Mngd`.
- The call-failure diagnostic names registry entry 0 (`apiRequests[0].Name`), whatever action was requested.
- The invalid-action diagnostic does not repeat the offending input.
- The debug sort compares names byte-wise and case-sensitively, with no case folding.

The request is always sent to registry entry 0 (main.go:178). `Cli.RunMain`
reproduces this as written. `Cli.RunMainCorrected` is the corrected
counterpart: it dispatches to the entry the index search found. See
"## Findings".

## Model

| member | source | states |
|---|---|---|
| Text.ToLower | main.go:294 | Folds every character on its own: same length, each character lower-cased, and no upper-case ASCII letter left in the result. |
| Text.RecaseFoldsAlike | main.go:294 | Any upper/lower re-casing of a string folds to the same string as the original. |
| Text.Less | main.go:125 | Go's string `<`: holds exactly when there is a first position where the strings differ in `b`'s favour, either `a` ending there while `b` goes on, or `a`'s character there being smaller. |
| Text.LessTransitive | main.go:125 | Go's string `<` is transitive. |
| Text.LessTrichotomous | main.go:125 | Any two names are equal, or one is `<` the other. |
| Text.LessAsymmetric | main.go:125 | `a < b` excludes `b < a`. |
| Registry.CheckAction | main.go:292-299 | Accepts exactly when some registry entry's name equals the action after case folding on both sides. |
| Registry.FindApiIndex | main.go:162-168 | Returns -1 exactly when no entry matches. Otherwise it returns a matching index with no match before it, i.e. the first match. |
| Registry.AcceptedActionIsFound | main.go:162-172 | The index search finds an entry exactly when `checkAction` accepted, so the "not found in apiRequests" exit cannot follow an accepted action. |
| Registry.FoundIndexIsOnlyMatch | main.go:163-167 | When names are unique up to case, every matching index equals the one the search returns. |
| Registry.CheckActionIgnoresCase | main.go:294 | Re-casing the action never changes the lookup's answer. |
| Registry.RegisteredNamesAccepted | main.go:292-299 | Every registry name is accepted in every letter casing. |
| Registry.Contains | main.go:303-307 | The interval loop answers exact membership in the list. |
| Registry.CheckInterval | main.go:302-309 | Accepts exactly "5m" and "1h". The match is case-sensitive, with no trimming. |
| Registry.ShippedNamesFold | main.go:38-40 | The two shipped names fold to "getdevices" and "getsites", the strings the result switch tests. |
| Registry.ShippedNamesUnique | main.go:38-40 | The shipped registry's names are unique up to case. |
| DebugSort.NameLeTransitive | main.go:125 | "Not after" on names is transitive. |
| DebugSort.InsertByName | main.go:124-126 | Inserting into an ascending registry keeps it ascending and adds exactly that entry. |
| DebugSort.LowerBoundOfPermutation | main.go:124-126 | A name that comes no later than every entry of a list and than a new entry also comes no later than every entry of any reordering of the list with the new entry added. |
| DebugSort.SortByName | main.go:124-126 | The result is ascending by name and a permutation of the input. |
| DebugSort.PermutationKeepsCheckAction | main.go:292-299 | Two registries with the same entries in any order accept the same actions. |
| DebugSort.SortKeepsCheckAction | main.go:123-126 | After the debug sort, `checkAction` gives the same answer for every action. |
| DebugSort.SortedPermutationSameHead | main.go:124-126 | Two ascending orderings of the same distinctly named entries start with the same entry. |
| DebugSort.SortedPermutationUnique | main.go:124-126 | Two ascending orderings of the same distinctly named entries are equal, so the unstable sort's result is determined. |
| DebugSort.UniqueFoldedNamesDistinct | main.go:38-40 | Names unique up to case are distinct. |
| DebugSort.ShippedRegistrySortIsIdentity | main.go:123-126 | Sorting the shipped registry leaves it unchanged, including entry 0. |
| DebugSort.SortCanChangeEntryZero | main.go:124-126 | For a registry listed out of name order, the sort puts a different entry at index 0. |
| Devices.DeviceCount | main.go:199-202 | The summed list lengths equal the number of devices in the host-then-device flattening. |
| Devices.DeviceCountBounds | main.go:199-202 | The count is at least each host's list length, and it is zero exactly when every host's list is empty. |
| Devices.DeviceCountAppend | main.go:199-202 | The device count of two host lists joined is the sum of their counts. |
| Devices.AllDevicesAppend | main.go:219-220 | Flattening two joined host lists gives the two flattenings joined. |
| Devices.DeviceRows | main.go:218-225 | There is one row per device (as many as the count). Row k shows the k-th device in host-then-device order, numbered k+1. The last number equals the count. |
| Devices.CountDevices | main.go:199-202 | The counting loop yields the sum of the hosts' list lengths. |
| Devices.EmitRows | main.go:220-224 | The inner loop appends one row per device of a host, keeps the earlier rows, and numbers on from them. |
| Devices.NumberRows | main.go:218-225 | The nested loop emits exactly the numbered rows of the flattened devices. |
| Devices.TabulateDevices | main.go:198-225 | The counting loop yields the sum of list lengths. The nested loop emits exactly the numbered rows of the flattened devices. |
| Cli.ExitStatus | main.go:100-115 | Status 1 exactly for the failure exits; 0 for a report or for help. |
| Cli.CallApi | main.go:265-289 | Success exactly for a response with 200 <= status < 300. A response with any other status still returns its body. Failures before a response return `(false, "")`. |
| Cli.Render | main.go:185-238 | Lower-cased "getsites" succeeds with no table. "getdevices" yields the count and numbered rows of the decoded hosts; when decoding fails it exits with the decoder's error instead. Any other action is the unknown-action exit, and only those are. |
| Cli.Dispatch | main.go:178-185 | The run fails under the target's name exactly when the call to the target's URL and method is unsuccessful. Otherwise the result switch renders the body that call returned. |
| Cli.RunMain | main.go:152-185 | Rejected actions exit with "invalid action", and only those do. The not-found exit is never taken. For an accepted action, a failed call to entry 0 ends with the failure naming entry 0, and a successful one renders entry 0's body, whichever entry the action named. |
| Cli.RunMainCorrected | main.go:162-185 | The same flow, but the call goes to the entry the search found: its failure is reported under that entry's name, and on success that entry's body is rendered. |
| Cli.Init | main.go:100-146 | Checks run in this order: help, missing action, empty key, bad interval. It proceeds only past all of them. Debug mode sorts the registry, and the registry is otherwise unchanged. |
| Cli.ShippedInit | main.go:100-146 | Over the shipped registry, start-up goes on exactly when help is off, an action and a key are given and the interval is valid, and it goes on with the registry unchanged, debug mode or not. |
| Cli.Program | main.go:90-239 | Help, a missing action, a missing key, a bad interval and a rejected action each give their own exit, exactly under their own conditions. For an accepted action the request goes to GetDevices' endpoint. A failed call ends with status 1 naming GetDevices, and a successful one renders that body. |
| Cli.ShippedActionsAreRendered | main.go:185-238 | Every action the shipped registry accepts folds to one of the two switch cases. |
| Cli.RunMainNeverUnknownAction | main.go:235-237 | Over any ordering of the shipped registry, `main` never takes the unknown-action exit. |
| Cli.ProgramNeverUnknownAction | main.go:235-237 | The whole program never takes the unknown-action exit. |
| Cli.DebugDoesNotChangeOutcome | main.go:119-126 | With the shipped registry, the program ends the same way with or without `--debug`. |
| Cli.OutcomeDependsOnlyOnEntryZero | main.go:178-182 | Two networks that answer entry 0's request alike give the same outcome for every action. |
| Cli.NonSuccessStatusFails | main.go:178-182 | If entry 0's request gets a response whose status is outside [200, 300), such as 404, every accepted action ends with status 1 and the call-failure exit naming entry 0. |
| Cli.GetSitesCallsDevicesEndpoint | main.go:178 | As written, `--action GetSites` on a network where only the sites endpoint answers fails, blaming GetDevices. |
| Cli.CorrectedGetSitesCallsSitesEndpoint | main.go:178 | With the corrected dispatch, the same run succeeds. |

## Left out

- HTTP request construction, the network call and the body read are left out (I/O). They become the `server` parameter and the `HttpOutcome` cases.
- The `Accept` and `X-API-Key` headers are left out (I/O).
- Flag parsing through pflag/viper, the default "5m", the `UNIFI_KEY` lookup, and the help text are left out (foreign libraries and glue). Parsed flags and the key arrive as values.
- `viper.IsSet("action")` is modelled as `Flags.action` being `None`.
- JSON decoding into `V1Devices` is left out; it belongs to `encoding/json`. It is the `unmarshal` parameter, and its error is abstract.
- `prettyPrint` and every debug echo of the raw body are left out (output only).
- Time values are left out (Go's time library). `Devices.Instant` is opaque, and RFC 3339 formatting is not modelled; rows carry the instant itself.
- `tabwriter` padding and column widths are left out (presentation). Rows are records of field values, and the header is a list of column names.
- Text.ToLower: folds ASCII letters only. Go's `strings.ToLower` also folds non-ASCII letters, so the lookup is modelled exactly only for ASCII actions.
- Devices.TabulateDevices: the row counter is an unbounded `nat`. Go's `int` cannot overflow at any realistic device count.
- DebugSort.SortByName: this is one particular sort. Go's `sort.Slice` is unstable, so its order among equal names may differ. `DebugSort.SortedPermutationUnique` shows that no such difference is possible when names are distinct.
- The `--interval` value is validated and otherwise unused, as in the source.

## Findings

| source | as written | input that shows it | evidently intended | confidence | as-written member | corrected member |
|---|---|---|---|---|---|---|
| main.go:178 | the request always uses `apiRequests[0]`'s URL and method, and failure is reported under `apiRequests[0].Name` | `--action GetSites`: the devices endpoint is requested | request `apiRequests[findApiIndex]`, the entry the action selected | high; not executed | Cli.GetSitesCallsDevicesEndpoint | Cli.RunMainCorrected |
