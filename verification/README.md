# Verification of apt-wharf

A Dafny 4.11 model of the parts of apt-wharf where correctness depends on more than one
function, with proofs. Run `dafny verify dfyconfig.toml`.

- **Debian versions and drayman.** `Version` models the version comparison loop and
  refines it to a lexicographic order on keys of integers, from which the total preorder
  follows; strings for which no order exists are characterised exactly. `Policy` gives the
  per-artifact decision a meaning that does not mention its scans. `Reconcile` runs a plan
  against a repository object; `History` proves what every sequence of runs keeps
  (strictly newer imports, gap-free revisions, nothing evicted) and that a run that
  succeeded leaves nothing to do; `Accounting` proves the summaries, the exit status, the
  order of calls and imports, and that a dry run does nothing.
- **Signpost's snapshots.** `Index` builds Packages and Release, `Reading` reads both back
  as a client does, `Bootstrap` has the bootstrap package's hash, version and reuse,
  `Compose` lays out one tick's files and redirects, `Snapshots` shows that carrying over
  from one snapshot equals the whole history, `Closure` that every published snapshot can
  be resolved and holds every source, and `Closure` and `Retention` for how long what it
  named stays. `Export` replays a snapshot onto disk with a crash allowed between any two
  atomic steps, and `Site` joins the two: a client of the exported directory never meets an
  InRelease whose files are missing.
- **The daemon.** `Serve` is the state machine of the main, reload and loop goroutines, one
  step at a time, over every interleaving, with proofs that it cannot deadlock and that
  every fair schedule ends it after a signal; `Lifecycle` says what whole starts, ticks,
  reloads and exits come to.
- **Smaller protocols.** `TokenBucket` (rate bound and exact waits), `Ar` (reading a
  control member from a head of the file and one further range) and `Reprepro` (stanza
  scanner and query cache).
- `Text` and `Sorting` hold the Go library functions these rely on.

Functions that loop or change state in the program are methods here, proved equal to a
specification function or against a property; the lemmas about that function are the
results. Every sequence of failures is covered: what the outside world does (a backend
query, a build, an import, a disk fault, a signer) is a parameter of the model. Lemmas turn
automatic induction off, so that each proof is the one written down.

Where the code departs from what is promised, the code is modelled and the condition under
which the promise holds is proved:

- NUL bytes. The comparison reads a NUL as end of string, so a version with a NUL that
  does not follow a digit is equivalent to two versions of which one is older
  (`Version.StrayNulBreaksOrder`); without one the order is total.
- A version followed by a tilde and any text is older than itself, except when it has a
  revision and the text a hyphen: the later hyphen then starts the revision, the text before
  it is all upstream, and the longer version is newer (`Version.TildeIsOlderExactly`).
- A plan base with a hyphen can be published on top of itself
  (`Policy.HyphenatedBaseCollides`, for instance 1.0-rc1), and no other base can
  (`Policy.CollisionOnlyIfSelfColliding`).
- A plan base that respells a present one ("1.00" for "1.0") can be built at a version that
  is not newer (`History.SameVersionTwice`). A build is strictly newer than everything
  present exactly when, for every respelling that is there, the very base is there too with
  a revision no smaller (`History.StrictlyNewerExactly`). A run keeps the repository's
  invariant whatever fails in it exactly when that holds for every artifact its plan decides
  to build (`History.AlwaysKeepsInvExactly`), and it always does over plans that spell equal
  bases alike (`History.AlikeIsAcceptable`).
- A publish that fails is not made up for: once everything is imported, every later run of
  the plan reports success and publishes nothing (`Accounting.FailedPublishIsForgotten`).
- An artifact that comes back from a build without a path is in no summary column
  (`Accounting.SummariesAddUp`).
- `TryTake` says it returns the later of the block's wait and the token's; it returns the
  block's alone. A retry at that wait succeeds exactly when there is a token already or the
  block outlasts the filling of one (`TokenBucket.BlockWaitIsEnoughExactly`; a run in which
  it does not is in `TokenBucket.BlockWaitTooShort`).
- The order of Packages is not fixed when two different entries share package and version
  (`Index.OrderDeterminedExactly`). The strict checks leave one such case, an "all" entry
  beside an architecture's own: every order is determined exactly when there is none
  (`Index.PackagesOrderExactly`), and then so is the whole output (`Index.BuildIgnoresOrder`).
- Commas inside an architecture are not told from separators in the bootstrap hash
  (`Bootstrap.CommasConfuse`); two lists are confused exactly when their sorted elements
  have the same pieces between commas (`Bootstrap.StreamExactly`).
- A bootstrap version is newer than the one it replaces exactly when the clock does not
  stand on an earlier date than when that one was made (`Bootstrap.NextIsNewerExactly`, over
  runs `Bootstrap.RecordedVersionsGrow`); two dates in turn even bring a version back
  (`Bootstrap.ClockBackReuses`).
- Export's leaves-first order tests the literal head `dists/` and looks for `/by-hash/`
  anywhere in a path. By-hash files come before InRelease exactly when the prefixed path of
  InRelease starts with the one and does not hold the other (`Export.PrefixOrderExactly`).
  Under any other prefix an export stays closed throughout exactly when every by-hash file
  it names is on disk already (`Export.PrefixedExportExactly`).
- A file that only a broken-off export wrote is in no marker and is never pruned, until some
  complete export has had it in its output (`Export.OrphansExactly`).
- A first export that was interrupted is refused afterwards exactly when it left any entry:
  a file, a temporary file or a directory (`Export.InterruptedFirstExport`).
- A negative size in an ar header is accepted. Down to -59 the walk still moves forward, -60
  and -61 come back to the same header, and anything below goes back, before the buffer's
  start (a panic) or to some earlier place (`Ar.StepDirection`, `Ar.FirstSizeDecides`). The
  walk never ends exactly when it comes to some header twice (`Ar.NeverEndsExactly`).
- The reprepro backend remembers a failed reading: the next query fails without one
  (`Reprepro.FailureIsRemembered`). An answer is that of a fresh reading exactly when the
  remembered one met a fault if and only if a fresh one would (`Reprepro.RunOps`).
- The exit on an HTTP listen error stops the daemon without its mutex and can leave a
  reload working (`Serve.HttpExitMayLeaveAReload`, and a run that does in `Serve.HttpExitLeavesAReload`);
  the other exit cannot (`Serve.ShutdownDrains`).

## Model

| member | source | states |
|---|---|---|
| Version.WalkNonDigits | pkg/plan/version.go:83-105 | the non-digit walk ends with the whole comparison's answer, or at two suffixes that compare the same and start with digits or end |
| Version.StripZeros | pkg/plan/version.go:107-112 | leading zeros go and the number a digit run denotes stays |
| Version.CompareDigits | pkg/plan/version.go:106-134 | strip, longer wins, first difference gives the sign of the difference of two unbounded numbers |
| Version.Verrevcmp | pkg/plan/version.go:79-137 | the index-walking double loop is the comparison `Verrev` for all strings, and terminates; what that says is in the rows from `Version.VerrevIsKeyOrder` to `Version.EndDecides` |
| Version.VerrevIsKeyOrder | pkg/plan/version.go:79-160 | without a stray NUL the comparison is the lexicographic one of zero-extended integer keys |
| Version.CompareKeysIsLexicographic | pkg/plan/version.go:70-78 | less, equal and greater are first difference and no difference, in both directions |
| Version.CompareKeysTransitive | pkg/plan/version.go:29-38 | the key order is transitive, for less and for equal |
| Version.StrayNulMatchesDigit | pkg/plan/version.go:139-160 | a stray NUL compares equal to any digit in its place |
| Version.SharedFront | pkg/plan/version.go:79-137 | what two strings share at the front, whole numbers or other characters, does not matter |
| Version.CharsDecide | pkg/plan/version.go:139-160 | where they first differ in characters that are no digits the tilde is first, then letters by byte, then all others by byte |
| Version.EndDecides | pkg/plan/version.go:139-160 | of such characters only the tilde comes before the end of a string and before a digit |
| Text.AtoiExactly | pkg/plan/version.go:61 | an optional sign and at least one decimal digit, and the number they denote |
| Version.CompareVersions | pkg/plan/version.go:39-52 | the answer is `Compare` for all strings: epoch, then upstream, then revision, whose meaning is in the rows from `Version.CompareReflexive` to `Version.TildeIsOlderExactly` |
| Version.CompareReflexive | pkg/plan/version.go:29-52 | every version equals itself |
| Version.CompareAntisymmetric | pkg/plan/version.go:29-52 | swapping the arguments swaps the sign, for all strings |
| Version.CompareTransitive | pkg/plan/version.go:29-52 | at-most is transitive and equality holds through exactly when both steps are equal, without stray NULs |
| Version.StrayNulBreaksOrder | pkg/plan/version.go:139-160 | every version with a stray NUL equals two versions of which one is strictly older |
| Version.SplitAtLastHyphen | pkg/plan/version.go:22-27 | the debian-revision is what follows the last hyphen, whatever is before it |
| Version.EpochsDecide | pkg/plan/version.go:39-68 | a greater epoch is newer whatever follows it, no epoch is 0, and equal ones leave it to what follows |
| Version.BadEpochStays | pkg/plan/version.go:54-68 | text before the first colon that is no number, or a negative one, belongs to the upstream version |
| Version.EpochByValue | pkg/plan/version.go:59-65 | an epoch counts as the number it denotes, sign and leading zeros or not |
| Version.RestDecides | pkg/plan/version.go:39-137 | after a common beginning that cuts no number, in the upstream version or in the revision, the rest decides |
| Version.NumbersDecide | pkg/plan/version.go:106-134 | after such a beginning numbers compare by value, and equal ones leave it to what follows |
| Version.FirstDifferenceDecides | pkg/plan/version.go:79-160 | the first difference between characters that are no digits decides by tilde, letter, other |
| Version.MoreIsNewer | pkg/plan/version.go:79-160 | more text without a hyphen or colon makes a version newer if it starts with a character that is no digit, and older if that is a tilde |
| Version.TildeIsOlderExactly | pkg/plan/version.go:139-160 | a version followed by a tilde and any text is older than itself, unless it has a revision and the text a hyphen; then it is newer |
| Version.CompareRevised | pkg/plan/version.go:8-27 | revised versions are ordered by base, then by revision as a number |
| Version.VersionStringInjective | pkg/plan/version.go:22-27 | base and revision can be read back from a published version |
| Policy.ScanUpstreams | internal/drayman/policy/decide.go:185-193 | the loop finds the running maximum of upstreams and the version it came from |
| Policy.ScanRevisions | internal/drayman/policy/decide.go:203-228 | the loop finds `MaxRevision`: the greatest revision carried by a version of the base, and the first package that does (`Policy.CarriesExactly`, `Policy.PriorIsFirst`) |
| Policy.DecideOne | internal/drayman/policy/decide.go:147-243 | the decision is `DecideArtifact`, query errors included; the rows below say what it is field by field |
| Policy.Decide | internal/drayman/policy/decide.go:112-145 | one decision per artifact or failed package in plan order, or an error at the first failing query |
| Policy.DecideAllPointwise | internal/drayman/policy/decide.go:112-128 | the i-th decision is that of the i-th slot alone |
| Policy.MaxUpstreamIsMaximum | internal/drayman/policy/decide.go:185-193 | the scan's result is present and no present upstream is newer |
| Policy.MaxRevisionIsMaximum | internal/drayman/policy/decide.go:202-228 | the scan's result is present and no integer revision of the base is greater |
| Policy.CarriesExactly | internal/drayman/policy/decide.go:202-228 | what a revision of the base counts for: none or an empty one for 0, digits after at most a plus sign for their number, any other for nothing |
| Policy.PriorIsFirst | internal/drayman/policy/decide.go:202-228 | the package kept is the first listed of those at the greatest revision |
| Policy.MaxUpstreamIsGreatest | internal/drayman/policy/decide.go:185-193 | the version kept is that of the first package listed whose upstream no other exceeds |
| Policy.RevisionNotNegative | internal/drayman/policy/decide.go:217-224 | a parsed revision is never negative, though the parser takes signs |
| Policy.RegressionMeaning | internal/drayman/policy/decide.go:176-200 | skipped exactly when some present package has a strictly newer upstream |
| Policy.RevisionMeaning | internal/drayman/policy/decide.go:202-242 | bare exactly when no integer revision of the base is present, else one above all, with the audit fields of the one below |
| Policy.NewExactly | internal/drayman/policy/decide.go:202-234 | a build is new, and at revision 0, exactly when no present version of the base carries a revision; other text after its hyphen does not count |
| Policy.BumpExactly | internal/drayman/policy/decide.go:202-241 | else it is a bump to one above the greatest revision carried, naming version and hash of the first package that carries it |
| Policy.RegressionFields | internal/drayman/policy/decide.go:176-200 | a skipped regression names the version of the first package whose upstream no other exceeds |
| Policy.DecideFailsExactly | internal/drayman/policy/decide.go:147-174 | which queries a decision needs and when it fails: hash, then the version field, then the listing, and only the hash when that is there |
| Policy.DecisionNames | internal/drayman/policy/decide.go:147-243 | a decision names its artifact, and depends on nothing present but the hash and the packages of that name and architecture |
| Policy.FailedPackageSkipped | internal/drayman/policy/decide.go:130-145 | a package whose discovery failed is one skip under its name |
| Policy.DecisionOrderFree | internal/drayman/policy/decide.go:171-242 | action and revision do not depend on the order in which the backend lists packages |
| Policy.ChosenVersionIsNew | internal/drayman/policy/decide.go:202-242 | with a hyphen-free base the chosen version is not present, whatever the repository holds |
| Policy.HyphenatedBaseCollides | internal/drayman/policy/decide.go:206-209 | a self-colliding base is published on top of itself |
| Policy.CandidateCollides | internal/drayman/policy/decide.go:206-209 | 1.0-rc1 is such a base |
| Policy.CollisionOnlyIfSelfColliding | internal/drayman/policy/decide.go:202-242 | a collision happens only for such a base |
| Reconcile.Repository.Import | internal/drayman/backend/backend.go:47-51 | a successful import evicts the same identity and appends; a failed one changes nothing |
| Reconcile.AddReplaces | internal/drayman/backend/backend.go:47-51 | afterwards the package is there once, none other has its identity, and the rest are as before |
| Reconcile.Repository.Publish | internal/drayman/backend/backend.go:53-57 | publishing changes no package and is counted |
| Reconcile.InitPackageSummaries | cmd/drayman/reconcile.go:249-263 | the loop counts totals and skips per package name |
| Reconcile.GroupByRevision | cmd/drayman/reconcile.go:302-311 | the buckets are the build decisions of each revision, in decision order, none empty |
| Reconcile.SortedRevisions | cmd/drayman/reconcile.go:316-322 | the keys in strictly ascending order |
| Reconcile.FilterArtifacts | cmd/drayman/reconcile.go:338-343 | one package's kept artifacts in plan order |
| Reconcile.FilterPlanForDecisions | cmd/drayman/reconcile.go:327-352 | exactly the artifacts whose package and architecture a decision of the group names, in plan order, failed packages dropped |
| Reconcile.CollectArtifacts | cmd/drayman/reconcile.go:421-445 | built artifacts in order, a failed tick per build error, none for a missing path |
| Reconcile.ImportGroup | cmd/drayman/reconcile.go:184-203 | packages, counters and flags after importing a group with any pattern of failures |
| Reconcile.RunGroup | cmd/drayman/reconcile.go:175-204 | one revision group: call, collect, import; a failed call ends the run |
| Reconcile.RunAllGroups | cmd/drayman/reconcile.go:175-204 | all groups in ascending revision, stopped at the first failed call |
| Reconcile.RunReconcile | cmd/drayman/reconcile.go:142-225 | report, packages and number of publishes of a whole run, dry ones included |
| History.CallGetsItsDecisions | cmd/drayman/reconcile.go:175-178 | the filter by key hands each call exactly the artifacts decided at its revision |
| History.EveryBuildInOneCall | cmd/drayman/reconcile.go:175-182 | every build decision reaches the call of its own revision and no other |
| History.RunImports | cmd/drayman/reconcile.go:175-204 | everything a run imports carries out a build decision of its plan, with distinct identities |
| History.AbortedExactly | cmd/drayman/reconcile.go:175-181 | a run is cut short exactly when a call at one of its revisions fails as a whole |
| History.ImportedExactly | cmd/drayman/reconcile.go:175-204 | a build decision is imported exactly when no call up to its revision fails, its artifact builds and its import succeeds |
| History.RunOnlyAppends | cmd/drayman/reconcile.go:142-225 | a run evicts nothing from any repository: forced replacement never replaces |
| History.ImportIsNew | cmd/drayman/reconcile.go:175-204 | an imported package's name, architecture and version together, and its hash, were not in the repository |
| History.ExistingAgainstChosen | internal/drayman/policy/decide.go:176-241 | the exact case in which an existing version is not older than the chosen one |
| History.StrictlyNewerExactly | internal/drayman/policy/decide.go:176-241 | a build is newer than everything present if and only if every present respelling of the base is matched by the very base at a revision no smaller |
| History.RespelledIsNotNewer | internal/drayman/policy/decide.go:176-241 | a present bare version whose respelling is planned gets a build that is not newer |
| History.SameVersionTwice | internal/drayman/policy/decide.go:176-241 | 1.0 present and 1.00 planned is such a case |
| History.RunKeepsInv | cmd/drayman/reconcile.go:142-225 | one run, whatever fails in it, keeps the repository monotone, gap-free and without repeated hashes, if the plan's respellings are matched |
| History.RunKeepsInvExactly | cmd/drayman/reconcile.go:142-225 | under given failures it does so if and only if no artifact with an unmatched respelling gets as far as its import |
| History.AlwaysKeepsInvExactly | cmd/drayman/reconcile.go:142-225 | it does so under all failures if and only if the plan decides to build no artifact with an unmatched respelling |
| History.EveryHistoryKeepsInv | cmd/drayman/reconcile.go:142-225 | over every sequence of runs from an empty repository: strictly newer imports, revisions bare to k without gap, no hash twice per name and architecture |
| History.AlikeIsAcceptable | cmd/drayman/reconcile.go:142-225 | plans that spell equal bases of a name and architecture alike satisfy that guard, over every sequence of runs |
| History.HistoryOnlyGrows | cmd/drayman/reconcile.go:142-225 | what any earlier run imported is still there, in order |
| History.ReconcileConverges | cmd/drayman/reconcile.go:142-225 | after a run in which all builds and imports succeeded the same plan makes no call, import or publish |
| History.SmallerRevisionsPresent | internal/drayman/policy/decide.go:202-242 | below any present revision every smaller one of the same base is present |
| Accounting.SummariesAddUp | cmd/drayman/reconcile.go:227-244 | skipped, built and failed add up to total less the artifacts without a path |
| Accounting.CountersExactly | cmd/drayman/reconcile.go:227-262 | each column by itself: total and skipped count decisions, built what was imported, failed what did not build or import |
| Accounting.CallsHandOverBuilds | cmd/drayman/reconcile.go:175-182 | the calls of a run hand over as many artifacts of a package as it has build decisions |
| Accounting.CallsInOrder | cmd/drayman/reconcile.go:175-181 | the calls are those of the revisions in ascending order up to and with the first that fails |
| Accounting.ImportsInOrder | cmd/drayman/reconcile.go:175-204 | imports happen by ascending revision, and within one in plan order, whatever fails |
| Accounting.FailedExactly | cmd/drayman/reconcile.go:172-203 | the failed flag is set exactly when an artifact failed to build or import |
| Accounting.AnyImportExactly | cmd/drayman/reconcile.go:172-204 | a run that is not cut short imports something exactly when an artifact handed over builds and imports |
| Accounting.StatusExactly | cmd/drayman/reconcile.go:175-225 | a publish is attempted exactly when no call fails and some artifact handed over builds and imports; which of the four endings a run has, by what fails |
| Accounting.DryRunDoesNothing | cmd/drayman/reconcile.go:156-159 | a dry run calls, imports and publishes nothing and leaves the packages alone; it is reported as dry exactly when deciding succeeds |
| Accounting.OnlyDryRunsAreDry | cmd/drayman/reconcile.go:142-225 | no other run is reported as dry, and one whose deciding fails does as little |
| Accounting.FailedPublishIsForgotten | cmd/drayman/reconcile.go:208-217 | after a failed publish of an otherwise successful run, later runs of the plan succeed and never publish what was imported |
| Accounting.FailedPublishHappens | cmd/drayman/reconcile.go:208-217 | any plan of one new artifact has such a run |
| Index.StrictChecks | internal/signpost/index/build.go:142-170 | exactly the foreign architectures and the repeated triples are reported |
| Index.SortEntries | internal/signpost/index/build.go:278-285 | a permutation sorted by package and version, not stable |
| Text.LessDecides | internal/signpost/index/build.go:279-284 | strings are compared byte by byte: the first difference decides, and an end is below any byte |
| Index.RenderPackages | internal/signpost/index/build.go:178-192 | the stanzas of the list, separated by blank lines |
| Index.RenderHashLines | internal/signpost/index/build.go:207-214 | a line per path in byte order after the header |
| Index.RenderRelease | internal/signpost/index/build.go:194-216 | the header fields and then every hash, size and path |
| Index.RecordArch | internal/signpost/index/build.go:120-129 | the four variants of an architecture are listed with their hash and size, earlier ones kept |
| Index.FanOut | internal/signpost/index/build.go:84-93 | entries by architecture, "all" apart, in order |
| Index.BuildArches | internal/signpost/index/build.go:95-130 | every architecture's files and listing |
| Index.Build | internal/signpost/index/build.go:75-140 | fails exactly on a strict-check offender, and otherwise returns a build of the entries |
| Index.PackagesPathInjective | internal/signpost/index/build.go:120-126 | paths of different architectures or variants differ, so no listing is overwritten |
| Index.OrderDeterminedExactly | internal/signpost/index/build.go:275-285 | the sorted order is unique if and only if no two different entries share package and version |
| Index.ArchListContents | internal/signpost/index/build.go:84-98 | an architecture's list holds exactly its own and the "all" entries |
| Index.FormsOfArch | internal/signpost/index/build.go:95-118 | an architecture has its own and the "all" entries, each as often as given, by package name, then version, as byte strings, and the three compressed forms of that text |
| Index.StrictKeysTell | internal/signpost/index/build.go:142-170 | the strict checks and no cross-listed "all" entry make the keys tell entries apart |
| Index.StrictKeysTellExactly | internal/signpost/index/build.go:142-170 | once the strict checks pass, the keys tell the entries of every architecture apart if and only if no "all" entry is cross-listed |
| Index.PackagesOrderExactly | internal/signpost/index/build.go:275-285 | and only then is the order of every Packages determined |
| Index.BuildIgnoresOrder | internal/signpost/index/build.go:75-140 | every permutation of the entries gives the same bytes, hashes and sizes |
| Reading.ControlIsVerbatim | internal/signpost/index/build.go:184-186 | the lines of a control text stand in the stanza as they are, however many newlines end it |
| Reading.StanzaReadsBack | internal/signpost/index/build.go:178-192 | whatever the control text holds, a reader finds pool path, size and hash of the entry in its stanza |
| Reading.PackagesReadsBack | internal/signpost/index/build.go:172-192 | Packages reads back as one stanza for each entry, in order, and nothing else |
| Reading.HashLineReadsBack | internal/signpost/index/build.go:212-214 | a line of hashes gives hash, size and path back |
| Reading.HeaderLinesRead | internal/signpost/index/build.go:194-205 | every header line of Release reads back as a field under its own key |
| Reading.ReleaseReadsBack | internal/signpost/index/build.go:194-216 | Release reads back as the header and then, in byte order, hash, size and path of every listing |
| Bootstrap.StreamDecodable | internal/signpost/bootstrap/bootstrap.go:39-60 | equal hash inputs have equal fields, whatever bytes the values hold |
| Bootstrap.StreamReadsBack | internal/signpost/bootstrap/bootstrap.go:39-60 | what is hashed reads back as eight named fields in this order, lengths and separators included |
| Bootstrap.JoinInjective | internal/signpost/bootstrap/bootstrap.go:50-56 | joined comma-free lists are equal only for equal lists, apart from an empty list and one empty string |
| Bootstrap.SortedListExactly | internal/signpost/bootstrap/bootstrap.go:50-56 | sorted and joined lists are equal exactly for the same multiset |
| Bootstrap.JoinedExactly | internal/signpost/bootstrap/bootstrap.go:50-56 | any two joined lists are equal exactly when their comma-separated pieces are |
| Bootstrap.ConfusedExactly | internal/signpost/bootstrap/bootstrap.go:50-56 | for comma-free lists that means the same list up to order |
| Bootstrap.StreamExactly | internal/signpost/bootstrap/bootstrap.go:37-63 | the hash input is equal if and only if all fields are and both sorted lists have the same pieces |
| Bootstrap.CommasConfuse | internal/signpost/bootstrap/bootstrap.go:54-56 | two architecture lists that configuration validation accepts and the hash does not tell apart |
| Bootstrap.NextDayVersion | internal/signpost/bootstrap/bootstrap.go:67-80 | the counter goes up within a day and starts at 1 on another |
| Bootstrap.CounterGoesOn | internal/signpost/bootstrap/bootstrap.go:67-80 | after today's date and a number of at least 1, plus sign or leading zeros and all, the counter is one above it |
| Bootstrap.ElseCounterStarts | internal/signpost/bootstrap/bootstrap.go:67-80 | after any other text it starts at 1 |
| Bootstrap.DayVersionOrder | internal/signpost/bootstrap/bootstrap.go:65-80 | versions compare as Debian versions by date, then by counter |
| Bootstrap.NextIsNewerExactly | internal/signpost/bootstrap/bootstrap.go:65-80 | the next version is newer unless its date is an earlier one, and then it is older |
| Bootstrap.RebuildIsNewerExactly | internal/signpost/refresh/bootstrap_step.go:55-77 | the same for every rebuild of every run, against the date of the record it replaces |
| Bootstrap.Store.EnsureBootstrap | internal/signpost/refresh/bootstrap_step.go:19-88 | reuse, rebuild and each write fault: the disk afterwards and the answer |
| Bootstrap.FailsExactly | internal/signpost/refresh/bootstrap_step.go:31-77 | a call fails exactly when nothing can be handed out and the build or one of the writes fails; the record stays, and a package whose record could not be written is left behind |
| Bootstrap.ReturnsWhatIsRecorded | internal/signpost/refresh/bootstrap_step.go:31-88 | what a call returns is what is recorded and on disk after it, and no other package is touched |
| Bootstrap.AskingAgainChangesNothing | internal/signpost/refresh/bootstrap_step.go:37-53 | after a success further calls for the same inputs return the same package and write nothing, on any date and with any faults |
| Bootstrap.ChangeIsBuilt | internal/signpost/refresh/bootstrap_step.go:37-77 | other inputs, or the loss of the package, lead to a build under another version |
| Bootstrap.RecordedVersionsGrow | internal/signpost/refresh/bootstrap_step.go:55-77 | in a run every later record is the same or strictly newer if and only if no rebuild stands on an earlier date than the record it replaces |
| Bootstrap.AdvancingNeverGoesBack | internal/signpost/refresh/bootstrap_step.go:55-77 | call dates that do not go back are enough for that |
| Bootstrap.PoolPathNeverReused | internal/signpost/refresh/bootstrap_step.go:55-77 | and then a later record never has another record's earlier pool path |
| Bootstrap.ClockBackReuses | internal/signpost/bootstrap/bootstrap.go:67-80 | two dates visited in turn and back again reuse a version |
| Bootstrap.RecordedDebIsBuilt | internal/signpost/refresh/bootstrap_step.go:37-77 | whatever the clock does, the recorded package, while it is there, was built by one of the calls for the recorded version, hash, name, size and checksum |
| Bootstrap.ReuseIsForSameInputs | internal/signpost/refresh/bootstrap_step.go:37-53 | with a collision-free hash the bytes handed out again were built by a call of the run from the same inputs, but for lists with the same pieces |
| Bootstrap.ReuseIsUpToOrder | internal/signpost/refresh/bootstrap_step.go:37-53 | with comma-free lists, from the same inputs up to list order |
| Snapshots.CarryOver | internal/signpost/refresh/compose.go:159-177 | new entries win, the previous snapshot's live on while not expired |
| Snapshots.CarryOverIsHistory | internal/signpost/refresh/compose.go:99-183 | looking at one snapshot equals looking at the last producer in the whole history, failed ticks included |
| Snapshots.ExpiringServedExactly | internal/signpost/refresh/compose.go:159-177 | an expiring path is served if and only if produced now or within a retention before, with the newest value |
| Compose.LayOutSources | internal/signpost/refresh/compose.go:25-57 | one entry and a redirect for each source with a control text that parses, and nothing else |
| Compose.LayOutVariant | internal/signpost/refresh/compose.go:120-129 | both copies of one variant, every other file still a copy of its own variant |
| Compose.LayOutCopies | internal/signpost/refresh/compose.go:101-130 | exactly the canonical and by-hash copies of every variant of every architecture |
| Compose.MakeIndex | internal/signpost/refresh/compose.go:59-82 | an error exactly when the bootstrap control is unreadable or a strict check offends, else an index of the sources and the bootstrap entry |
| Compose.MakeSnapshot | internal/signpost/refresh/compose.go:24-157 | all files and redirects of a fresh snapshot; an error only when the index cannot be built or its Release not signed |
| Compose.ComposeSnapshot | internal/signpost/refresh/compose.go:24-184 | the fresh snapshot, with every usable source in its index (`Closure.EverySourceIndexed`), on top of what is still alive, with the same errors |
| Compose.Refresher.Compose | internal/signpost/refresh/refresher.go:172-195 | publish the composed snapshot with one store, or keep the prior one on any failure |
| Compose.PoolPathInjective | internal/signpost/refresh/compose.go:232-241 | pool paths of different packages, versions or architectures differ when names hold no slash or underscore |
| Compose.PoolPathsApart | internal/signpost/refresh/compose.go:232-241 | no source's pool path is a bootstrap pool path of another package name |
| Closure.PoolLayout | internal/signpost/refresh/compose.go:232-241 | the directory is the first letter, or the first four of a library name |
| Closure.BootstrapLayout | internal/signpost/bootstrap/bootstrap.go:163-172 | the bootstrap package lies under its first letter, which is the usual place exactly when its name is not that of a library |
| Compose.ByHashInjective | internal/signpost/refresh/compose.go:105-128 | by-hash paths give architecture and hash back |
| Compose.CanonicalIsNotByHash | internal/signpost/refresh/compose.go:105-128 | a canonical path is never a by-hash path |
| Closure.ReleaseIsClosed | internal/signpost/refresh/compose.go:99-145 | every line of Release is served under both names with bytes of its hash, under the canonical name (and, with a collision-free hash, under both) of its size, also after carry-over |
| Closure.SignedFilesServed | internal/signpost/refresh/compose.go:132-145 | the Release, Release.gpg and InRelease served are the ones built and signed in the tick, under their content types |
| Site.ReleaseServed | internal/signpost/refresh/compose.go:70-79 | the Release on display introduces the configured suite and lists what the tick built, line by line |
| Closure.EverySourceIndexed | internal/signpost/refresh/compose.go:33-57 | every source whose control text is not empty and parses is in the index under its own fields, and its pool path redirects to its own asset |
| Closure.NothingElseIndexed | internal/signpost/refresh/compose.go:33-82 | every other entry is the bootstrap package's |
| Closure.EveryRunIndexes | internal/signpost/refresh/compose.go:33-57 | both over every run of ticks |
| Closure.PackagesServed | internal/signpost/refresh/compose.go:105-130 | Packages under its four names holds exactly the own and the "all" entries of the architecture, by name and version, with these content types |
| Closure.FixedNamesServed | internal/signpost/refresh/compose.go:147-157 | key, latest version, latest redirect and bootstrap package under their names |
| Closure.BootstrapIsServed | internal/signpost/refresh/snapshot.go:40-48 | the bootstrap path answers with its bytes whatever redirects there are, and only a path that is neither file nor redirect misses |
| Closure.OwnRedirect | internal/signpost/refresh/compose.go:33-57 | a source's redirect is its own asset |
| Closure.FilenamesResolve | internal/signpost/refresh/snapshot.go:40-48 | every Packages Filename resolves through Lookup to its own upstream URL or to the bootstrap bytes |
| Closure.EveryRunResolves | internal/signpost/refresh/refresher.go:172-195 | so it does in every snapshot of every run of ticks |
| Closure.RunIsHistory | internal/signpost/refresh/refresher.go:172-195 | the files and redirects on display after a run are those of the whole-history theorem |
| Closure.MadeByHash | internal/signpost/refresh/compose.go:101-130 | a fresh snapshot holds a by-hash path exactly when its Release lists the hash, for one retention |
| Closure.ByHashServedExactly | internal/signpost/refresh/compose.go:99-183 | in every run a by-hash path is served if and only if the Release on display lists it or one less than a retention older did |
| Closure.ByHashStays | internal/signpost/refresh/compose.go:123-128 | what a Release listed stays for a retention, whatever the ticks in between did |
| Closure.RedirectServedExactly | internal/signpost/refresh/compose.go:159-183 | in every run a pool path redirects if and only if a source on display has it or one less than a retention older had |
| Retention.CanonicalServedExactly | internal/signpost/refresh/compose.go:105-177 | in every run Packages of an architecture is served under its own names if and only if the snapshot on display has that architecture |
| Retention.BootstrapServedExactly | internal/signpost/refresh/compose.go:147-177 | in every run a bootstrap package is served if and only if it is that of the snapshot on display or was that of one less than a retention older |
| Closure.BootstrapStanzaIsGenuine | internal/signpost/refresh/compose.go:59-82 | the bootstrap stanza's size and checksum are those of the bytes its Filename serves, after any run of ensureBootstrap |
| Export.WriteOrder | internal/signpost/export/export.go:244-273 | a permutation of the paths sorted by tier, then by bytes; `Export.LeavesFirst` says what the tiers come to |
| Export.LeavesFirst | internal/signpost/export/export.go:240-273 | in every write order: outside dists/, by-hash, all but the release files, Release.gpg, Release, InRelease |
| Export.LeavesLandFirst | internal/signpost/export/export.go:126-141 | after any number of steps of an export, what has landed finds all it needs there, with its new bytes |
| Export.InReleaseLandsLast | internal/signpost/export/export.go:11-18 | once InRelease has landed every other file of the output is there with its new bytes |
| Export.CollectOutput | internal/signpost/export/export.go:99-124 | the output map of the four lemmas that follow |
| Export.SiteIsCollected | internal/signpost/export/export.go:99-110 | every site file is in it under its relative path with its own bytes |
| Export.TargetIsCollected | internal/signpost/export/export.go:111-124 | and every target file |
| Export.OnlyTheseCollected | internal/signpost/export/export.go:99-124 | and nothing else |
| Export.CollectFailsExactly | internal/signpost/export/export.go:99-124 | it is refused exactly on an unsafe path or a target in the place of another file |
| Export.RelPathExactly | internal/signpost/export/export.go:216-238 | a path is taken exactly when it is a slash and segments that stay below the root and are not the marker |
| Export.RelPathNeedsSlash | internal/signpost/export/export.go:216-238 | and no other path is |
| Export.RefusedExactly | internal/signpost/export/export.go:174-214 | a directory is refused exactly when it holds something but no marker, or a marker that is unreadable or lists a path that leaves it |
| Export.MarkerReadsBack | internal/signpost/export/export.go:158-214 | the marker of a complete export is accepted by the next one and gives the paths of the output back |
| Export.Disk.Step | internal/signpost/export/export.go:275-311 | one atomic step, or a fault that changes no file and may leave directories or a temporary file |
| Export.Replay | internal/signpost/export/export.go:135-170 | puts in order, removals, marker, up to the first fault |
| Export.WriteOver | internal/signpost/export/export.go:135-171 | exactly as many steps of a plan reach the disk as it takes; success and the counts exactly when that is all of them |
| Export.Write | internal/signpost/export/export.go:126-172 | the same over the paths of the previous marker, so that InRelease lands last (`Export.InReleaseLandsLast`); an unreadable marker changes nothing |
| Export.ReportExactly | internal/signpost/export/export.go:135-171 | success takes a step for each file, each path to prune and the marker; it reports the files written and the paths pruned |
| Export.RefsComeFirst | internal/signpost/export/export.go:240-273 | in the write order by-hash files come before InRelease |
| Export.ClosedAtEveryStep | internal/signpost/export/export.go:126-171 | at every single rename or removal the InRelease on disk finds all by-hash files it names |
| Export.OnlyOwnPathsTouched | internal/signpost/export/export.go:174-176 | a path in neither the previous marker nor the output is never touched, one of the output that is there stays there, any path has old or new bytes or is pruned |
| Export.CompleteWrite | internal/signpost/export/export.go:126-171 | after a complete write: the new output, untouched foreign files, and a marker listing exactly the output |
| Export.OrphansAfterTry | internal/signpost/export/export.go:143-171 | a complete export takes over the unmarked files among its output and prunes none; a broken-off one adds those of its files that the previous marker lacks |
| Export.OrphansExactly | internal/signpost/export/export.go:143-171 | over every sequence of exports, exactly which files no marker lists |
| Export.LeftBehindExactly | internal/signpost/export/export.go:126-172 | after a complete export the files are its output and exactly those |
| Export.EveryRunStaysClosed | internal/signpost/export/export.go:126-171 | the same over every sequence of exports that crash anywhere and are run again |
| Export.InterruptedFirstExport | internal/signpost/export/export.go:187-200 | an interrupted first export is refused afterwards exactly when it left a file, a temporary file or a directory |
| Export.PrefixOrderExactly | internal/signpost/export/export.go:244-272 | under every path prefix, which of InRelease and a by-hash file is written first |
| Export.NoPrefixIsGood | internal/signpost/export/export.go:244-272 | without a prefix by-hash files are |
| Export.OutsideDistsIsBad | internal/signpost/export/export.go:246-248 | under a prefix that does not start with d InRelease is |
| Export.ByHashDirectoryIsBad | internal/signpost/export/export.go:249-250 | and so it is under a prefix with a directory named by-hash inside |
| Export.PrefixedExportExactly | internal/signpost/export/export.go:126-172 | under every prefix an export keeps a closed repository closed at every step if and only if the prefix is good or all that the new InRelease names is on disk already |
| Export.GoodPrefixIsTiered | internal/signpost/export/export.go:244-260 | under a good prefix the write order is what the statements over runs rely on |
| Site.ComposedIsAddressed | internal/signpost/refresh/compose.go:99-183 | no by-hash file, fresh or carried over, is served under a hash that is not its own |
| Site.RunIsAddressed | internal/signpost/refresh/compose.go:99-183 | the same for every snapshot of every run of ticks |
| Site.CollectedIsExport | internal/signpost/export/export.go:99-124 | what is collected from a snapshot holds all its files and no other by-hash names |
| Site.ComposedExportIsOk | internal/signpost/export/export.go:11-18 | an export of a composed snapshot satisfies what the write order relies on |
| Site.ExportedRunStaysClosed | internal/signpost/export/export.go:126-171 | end to end: composed snapshots exported in turn with crashes anywhere leave a closed repository whenever anyone looks |
| Serve.StepKeeps | cmd/signpost/serve.go:99-121 | every step of every goroutine keeps the invariant of generations, mutex, once and tick lock |
| Serve.OneWorker | cmd/signpost/serve.go:123-129 | in every interleaving at most one goroutine fetches or composes into the shared holder |
| Serve.TicksAreNeverDropped | internal/signpost/refresh/refresher.go:121-126 | a tick never finds its own lock taken |
| Serve.ClosedExactlyOnce | cmd/signpost/serve.go:172-194 | loopDone is closed at most once, and exactly once when a stop is over or the generation replaced |
| Serve.SnapshotsFormAChain | internal/signpost/refresh/refresher.go:183-188 | each snapshot was composed against the one published just before it, across reloads |
| Serve.ServesASnapshot | cmd/signpost/serve.go:69-92 | the listener starts only once a snapshot is published |
| Serve.UncommittedReloadsAreInvisible | cmd/signpost/serve.go:234-260 | a run in which no reload commits is, but for the reload and the mutex, the run without its reload steps |
| Serve.FailedReloadsKeepGeneration | cmd/signpost/serve.go:218-236 | in such a run the generations and the current one stay, nobody but main cancels it, and no snapshot is lost |
| Serve.CurrentLoopIsAlive | cmd/signpost/serve.go:257-284 | while serving and outside a commit the current generation is the newest and its loop runs uncancelled, whatever reloads failed before |
| Serve.ShutdownDrains | cmd/signpost/serve.go:111-120 | when shutdown has stopped the current generation nobody works |
| Serve.HttpExitMayLeaveAReload | cmd/signpost/serve.go:102-108 | after the exit on an HTTP error only a reload past the generation that was stopped can still work |
| Serve.HttpExitLeavesAReload | cmd/signpost/serve.go:102-108 | a run in which a reload is at work when that exit is taken |
| Serve.MainCanFinish | cmd/signpost/serve.go:99-194 | no deadlock: from every reachable state some schedule ends the main goroutine, after a signal through the graceful shutdown with every step succeeding, and without one with every step failing |
| Serve.FairRunsEnd | cmd/signpost/serve.go:99-194 | after a signal every fair schedule ends the main goroutine within a bound, if no new reload is asked for and no timer beats a cancellation |
| Lifecycle.StartupExactly | cmd/signpost/serve.go:60-75 | a start gets to its loop exactly when import, gathering and composing succeed; else main stops the generation it never started and exits |
| Lifecycle.WholeTick | internal/signpost/refresh/refresher.go:160-195 | a tick publishes exactly when gathering and composing succeed, and leaves its lock free either way |
| Lifecycle.DroppedTick | internal/signpost/refresh/refresher.go:121-126 | a tick that finds the lock taken does nothing and reports no error |
| Lifecycle.PublishedExactly | internal/signpost/refresh/refresher.go:172-195 | over every run there are as many snapshots as steps that composed one |
| Lifecycle.ServesUntilStopped | cmd/signpost/serve.go:99-109 | a daemon that serves goes on serving through all ticks and reloads until a signal comes or its HTTP server fails |
| Lifecycle.ExitsAreShutdowns | cmd/signpost/serve.go:99-121 | main stops serving, and the reload goroutine ends, only once the context is cancelled |
| Lifecycle.ExitIsClean | cmd/signpost/serve.go:102-120 | main exits only past a stop that is over; unless the HTTP server failed, of the newest generation and with nobody at work |
| Lifecycle.HttpExitOnlyOnFailure | cmd/signpost/serve.go:99-109 | the other exit is taken only when the HTTP server fails |
| Lifecycle.SignalEndsTheLoop | internal/signpost/refresh/refresher.go:200-219 | a signal alone ends a waiting loop, without anyone stopping its generation |
| Lifecycle.SignalEndsTheReload | cmd/signpost/serve.go:221-225 | after a signal an idle reload goroutine ends when it looks, for good |
| Lifecycle.FailedReloadIsGivenUp | cmd/signpost/serve.go:237-256 | a reload that fails before its commit frees the mutex and changes nothing |
| Lifecycle.CommitPassedEveryCheck | cmd/signpost/serve.go:237-262 | a generation is given up only by a reload that loaded, checked and wired its configuration in the same attempt |
| Lifecycle.ReloadCarriedThrough | cmd/signpost/serve.go:257-286 | a commit carried through makes the new generation current with its loop waiting, also when its import or refresh fails |
| TokenBucket.Bucket.constructor | internal/signpost/source/bucket.go:24-35 | a full bucket of one hour's tokens |
| TokenBucket.Bucket.TryTake | internal/signpost/source/bucket.go:42-63 | block, fill, grant or refuse with a wait, and the new state |
| TokenBucket.Bucket.BlockUntil | internal/signpost/source/bucket.go:66-72 | the unblock time only moves forward |
| TokenBucket.StaysSane | internal/signpost/source/bucket.go:42-63 | over every sequence of calls the tokens stay between none and the capacity |
| TokenBucket.LevelExactly | internal/signpost/source/bucket.go:48-52 | the level grows by exactly what flows in, up to the capacity |
| TokenBucket.FullInAnHour | internal/signpost/source/bucket.go:23-34 | after an hour without calls any bucket is full |
| TokenBucket.BurstIsGranted | internal/signpost/source/bucket.go:42-59 | as many calls at one instant are granted as there are whole tokens, and they leave the rest |
| TokenBucket.FreshBurst | internal/signpost/source/bucket.go:23-59 | a new bucket grants exactly its hourly rate in a burst, and the next call is refused |
| TokenBucket.RefusedTakesNone | internal/signpost/source/bucket.go:44-57 | a refused call takes nothing |
| TokenBucket.Conservation | internal/signpost/source/bucket.go:42-63 | grants of a window plus what is left are covered by what was there plus what flowed in |
| TokenBucket.WindowBound | internal/signpost/source/bucket.go:12-22 | grants in any window are at most the capacity plus the window times the fill rate |
| TokenBucket.NoGrantWhileBlocked | internal/signpost/source/bucket.go:47-49 | no call before an unblock time set earlier is granted |
| TokenBucket.TokenWaitIsExact | internal/signpost/source/bucket.go:56-59 | after a refusal for lack of tokens a retry succeeds exactly from the returned wait on |
| TokenBucket.BlockedRetryExactly | internal/signpost/source/bucket.go:36-49 | after a refusal by a block a retry succeeds exactly from the unblock time or the next token on, whichever is later |
| TokenBucket.BlockWaitIsEnoughExactly | internal/signpost/source/bucket.go:36-49 | the wait returned is enough if and only if there is a token at the call or the block lasts as long as filling one |
| TokenBucket.BlockWaitTooShort | internal/signpost/source/bucket.go:36-49 | a run of calls in which it is not enough |
| Ar.ParseARHeaders | internal/signpost/fetch/ar.go:29-71 | the members of a buffer, the first malformed header, a panic, or a walk that never ends, for sizes of either sign |
| Ar.ReadExactly | internal/signpost/fetch/ar.go:44-56 | a header is read exactly when its trailer is right and its size field holds a number, maybe signed; one slash is taken off the name |
| Ar.OffsetsIncrease | internal/signpost/fetch/ar.go:45-70 | in a well-formed archive every member starts after all earlier ones end |
| Ar.HeadShowsAPrefix | internal/signpost/fetch/ar.go:25-28 | a head of a well-formed archive shows exactly the members whose headers it holds, at the same places |
| Ar.HeadErrorIsReal | internal/signpost/fetch/ar.go:25-69 | a head is refused, panics or is walked for ever only when the same happens to the whole archive, whatever the sizes |
| Ar.FindControlMember | internal/signpost/fetch/ar.go:76-83 | the first member with the prefix, or an error when there is none |
| Ar.Splice | internal/signpost/fetch/fetch.go:233-253 | the buffer filled from the head and one range answer, or an error |
| Ar.ExtractControl | internal/signpost/fetch/fetch.go:213-260 | magic, headers, control member, caps and splice, with each error, and with the panics and endless walks of negative sizes |
| Ar.GoesWrongExactly | internal/signpost/fetch/fetch.go:213-260 | it hangs or panics, instead of refusing, exactly when the walk does or the control member has a negative size that fits the total |
| Ar.ControlOfHead | internal/signpost/fetch/ar.go:76-83 | a head yields a well-formed archive's control member exactly when it holds that header |
| Ar.BodyIsSpliced | internal/signpost/fetch/fetch.go:233-253 | head and tail together are the member's slice of the file, and a member past its end fails |
| Ar.RangedIsWhole | internal/signpost/fetch/fetch.go:152-260 | over a well-formed archive ranged reading gives what reading the whole file gives, unless the control header lies past the head |
| Ar.ShortTailIsRefused | internal/signpost/fetch/fetch.go:246-249 | whatever a server sends, a body in use has the declared length and agrees with the head |
| Ar.ParseOfWritten | internal/signpost/fetch/ar.go:17-71 | parsing what a spec writer wrote finds every member, name and size, in order |
| Ar.WrittenBodies | internal/signpost/fetch/ar.go:85-93 | the slice found for each written member is its body |
| Ar.WrittenIsExtracted | internal/signpost/fetch/fetch.go:213-260 | of a written package the first member called control.tar, with whatever ending, is opened under its name, unless it is over 16 MiB or past the total told |
| Ar.NoControlIsRefused | internal/signpost/fetch/ar.go:76-83 | one without such a member is refused |
| Ar.OtherMagicIsRefused | internal/signpost/fetch/ar.go:29-35 | and so is a file that does not begin as an archive |
| Ar.StepDirection | internal/signpost/fetch/ar.go:62-69 | the walk moves forward exactly from size -59 on, and comes back to the same header exactly at -60 and -61 |
| Ar.FirstSizeDecides | internal/signpost/fetch/ar.go:40-69 | a first size of -60 or -61 never ends, one that leads before the buffer panics |
| Ar.NeverEndsExactly | internal/signpost/fetch/ar.go:40-69 | the walk never ends if and only if it comes to some header twice |
| Ar.OnlyFarBackGoesWrong | internal/signpost/fetch/ar.go:40-69 | a panic or an endless walk has met a size of at most -60 |
| Reprepro.ParsePackages | internal/drayman/backend/reprepro/packages.go:22-66 | the line loop yields, stanza by stanza, the record of each that names a package |
| Reprepro.ScannerIsStanzas | internal/drayman/backend/reprepro/packages.go:29-64 | the scanner in any state equals the stanza-wise reading with last value wins |
| Reprepro.BlankLineSeparates | internal/drayman/backend/reprepro/packages.go:11-21 | two files with a blank line between them parse to both parses in turn |
| Reprepro.PrintReadsBack | internal/drayman/backend/reprepro/packages.go:11-21 | parsing printed stanzas gives every package back, whatever other fields and continuation lines they carry |
| Reprepro.FieldExactly | internal/drayman/backend/reprepro/packages.go:39-48 | a line is a field exactly when it starts with neither blank nor tab and holds a colon; the key is what is before the first |
| Reprepro.LaterLineWins | internal/drayman/backend/reprepro/packages.go:39-66 | a field line replaces what an earlier one of its key said, any other line changes nothing, and a stanza is a record exactly when it names a package |
| Reprepro.TrimsExactly | internal/drayman/backend/reprepro/packages.go:48 | a value is the rest of the line without ASCII white space at either end |
| Reprepro.LineAtEnd | internal/drayman/backend/reprepro/packages.go:27-30 | a last line needs no newline |
| Reprepro.EitherLineEnd | internal/drayman/backend/reprepro/packages.go:27-30 | an index is read alike with either kind of line ends |
| Reprepro.FetchSnapshot | internal/drayman/backend/reprepro/backend.go:156-174 | all listed files parsed in order, absent ones skipped, a failing one an error |
| Reprepro.FetchExactly | internal/drayman/backend/reprepro/backend.go:156-174 | a reading is the target's records, or an error exactly when it meets a fault |
| Reprepro.Backend.Snapshot | internal/drayman/backend/reprepro/backend.go:147-154 | the cached reading, its error included, or else one of its own, which is then cached |
| Reprepro.Backend.HashExists | internal/drayman/backend/reprepro/backend.go:83-94 | true exactly when a record of that reading has the hash |
| Reprepro.Backend.ListByNameArch | internal/drayman/backend/reprepro/backend.go:98-110 | the matching records of that reading, in order |
| Reprepro.Backend.Import | internal/drayman/backend/reprepro/backend.go:119-136 | a success drops the cache, a failure leaves target and cache alone |
| Reprepro.FillerIsFirst | internal/drayman/backend/reprepro/backend.go:130-154 | the reading in the cache is that of the first query since the last successful import |
| Reprepro.CachedIsDirectExactly | internal/drayman/backend/reprepro/backend.go:83-154 | at any query of any run, with any faults, the cached answer is that of a fresh reading if and only if both readings meet a fault or neither does |
| Reprepro.AgreeWithoutFaults | internal/drayman/backend/reprepro/backend.go:83-154 | without faults the two always agree |
| Reprepro.FailureIsRemembered | internal/drayman/backend/reprepro/backend.go:147-154 | two queries of which the second fails where a fresh reading would not |
| Reprepro.RunOps | internal/drayman/backend/reprepro/backend.go:83-154 | the object gives those answers over every sequence of queries and imports |

## Left out

- Concurrency as Dafny code: `Serve` models the goroutines, `daemonState` and `generation` as values of one state machine, because their methods interleave and a Dafny class runs alone.
- Wired secrets: zeroing them, and who may still hold them after a reload or the exit on an HTTP error.
- The tracker, status page, metrics, log lines, audit log and the texts of error messages; errors keep their branch and order.
- Machine integers: `strconv.Atoi` and `ParseInt` are partial functions to unbounded integers, so overflow of an epoch, of a debian-revision or of `maxRev+1` is not modelled.
- Floats and nanoseconds: `TokenBucket` computes with reals and seconds, `Snapshots` with integer nanoseconds.
- Locks inside a single call (`Bucket.mu`, `Registry.mu`, the holder's atomic pointer): each such call is one step; `Registry` itself is left out.
- Library code: HTTP, SHA-256, compression, OpenPGP, nfpm, tar and control-stanza parsing are deterministic functions of the model, collision-freedom being assumed only where a statement says so.
- Backends: `Reconcile.Repository` is a package list; aptly's staged files and its transport are not part of this model, and a second import of the same name, architecture and version replaces the first.
- Publishing to disk of several bytes: a temp file and its rename is one step of `Export.Disk`; of the directories and temporary files only is kept whether any was made, and no other program writes to the directory.
- BuildManifest's character checks and the targets' own files: `Export.CollectOutput` takes both lists as given.
- The Last-Modified bookkeeping of a snapshot.
- Clock: `Snapshots`, `Bootstrap` and `TokenBucket` take the time as a parameter; statements about carry-over and about windows of the bucket ask that it does not go back.
- Lines of a megabyte or more, at which the program's scanner gives up silently, and white space outside ASCII in `Reprepro`; its target changes only by its own imports, and a failed includedeb changes nothing.
- Discovery of sources, per-source fetching and its worker pool: `Compose` starts from the source states.
- YAML configuration, CLI flags, substitution templates, the cooper and chandler tools.
- Ar.RangedIsWhole: about archives whose header walk ends and whose sizes are not negative, as are `Ar.HeadShowsAPrefix`, `Ar.ControlOfHead` and `Ar.OffsetsIncrease`; after a jump back a whole file can show members that a head of it does not.
- Index.StrictChecks: the source names listed in a duplicate's message are not modelled.
- Site.ComposedExportIsOk: what a client reads out of the signed text is a parameter, tied to the lines of Release by the predicate `Reads`.
