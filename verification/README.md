# Chart resolution, cache and clean-up of learn-helm-oci, verified

This project models the parts of the repository that decide something: which chart version a
request resolves to, what the bounded cache remembers, who owns an HTTP transport during a
download, what a chart load leaves behind when a step fails, and what the Flux printer writes.
`dafny verify dfyconfig.toml` checks all of it.

**Version resolution** (`Strings`, `SemVer`, `SemVerParsing`, `SemVerOrder`, `Resolver`,
`ResolverLaws`, `ChartRepository`). Version parsing, printing and comparison are modelled concretely,
character by character, as the vendored libraries do them. The constraint parser is a parameter; a
parsed constraint is any predicate on versions, and `*` accepts versions without a pre-release. The
filter loop fills an array, the sort swaps elements of it in place, and what a resolution may answer
is the relation `Resolver.Resolution`: among tags of equal precedence the code does not fix the
choice, because the sort is not stable.

**Cache** (`CacheSpec`, `Cache`, `CacheRuns`, `CacheSweeps`, `CacheLock`, `CacheOrder`). `Cache.Cache` is
the object with its map and clock. `CacheSpec.Step` says what one call may do; every method meets it,
and `CacheRuns`, `CacheSweeps` prove what follows for whole runs. `CacheLock` is the same cache with any
number of threads (the janitor is one of them) interleaved at every lock operation, map access and
clock reading. `CacheOrder` proves that its finite executions refine the sequential runs of the same
steps, call by call and in real-time order.

**Transports and downloads** (`Transport`, `Slices`, `ChartDownload`, `Downloads`). The classes hold
the in-place updates of one download: the pool, the transport's TLS settings, and the options slice
with its backing array and capacity. `Downloads` interleaves any number of downloads of one repository;
a download that nobody interrupts does there what the method does (`AloneAsDownloadChart`).

**Loading a chart** (`Auth`, `LoadChart`, `LoadLaws`, `URLs`). Every foreign call is an arbitrary success or
failure. `LoadChart.Delta` is the protocol of contexts, temporary files, logins and registry uses; the
method `LoadChart.LoadChart` runs its deferred calls in reverse order and keeps the protocol in every
case, and the lemmas say what that means for files, logins and logouts.

**Flux printer** (`FluxCommand`, `FluxPrinter`, `FluxText`, `FluxRoundTrip`, `FluxShape`). The buffer is filled
piece by piece as in the source and equals the rendering of a command; a small reader takes the text apart again.

## What the proofs say about the code

- `SetExpiration` changes a copy of the item, so it never has an effect on the cache, although it is
  documented to set the expiration. Later Gets tell the difference exactly when the old and the new
  deadline make one from now on (`SetExpirationKeepsItsPromise`, `SetExpirationIsLost`).
- A deadline beyond 64 bits wraps to a negative number and such an item never expires
  (`WrittenLifetime`), while `GetExpiration` still answers the time to the deadline asked for, because
  its subtraction wraps back (`RemainingOfWritten`). It is zero at the deadline itself and negative for
  an item written without one (`RemainingMeaning`).
- Sweeps cannot be seen in the answers as long as the keys fit into the cache, except by `ItemCount`, by
  an `Add` of a key whose last write has expired, and by the calls after such an `Add`, which find the
  item it wrote or find it missing (`SweepsAreTransparent`, `AddAnswers`, `AddSeesSweeps`). When the keys do not fit, `Set` sees them exactly when the cache is full for a new
  key and holds an expired item (`SetAnswers`, `SweepChangesAnswer`, `SetSeesSweepsWhenFull`).
- Versions are ordered as section 11 of Semantic Versioning 2.0.0 says, except where a numeric
  pre-release identifier beyond 64 bits decides: those are compared as text
  (`OrderFollowsSection11`, `OversizedNumbersAreMisordered`, `ResolvedBySection11`). That the comparison
  is an order at all rests on the parser: on identifiers with leading zeros, which it rejects, it is not
  even antisymmetric (`LeadingZerosBreakTheOrder`).
- Requests for the latest version never take the shortcut (`LatestListsTags`), and what they resolve to
  shows no hyphen before the build metadata (`LatestIsStable`, `StableTagText`).
- The shortcut for versions and digests answers also for tags that are not listed; there it differs
  from the listing path (`ShortcutRefinesListing`). A resolution that fails returns a chart version with
  an empty tag beside its error.
- Overlapping downloads of one repository keep to their own transports exactly when the options slice
  has no spare capacity (`IsolatedExactlyWithoutSpare`). A slice that comes from appends, as in
  main.go:146-162 and main.go:232, may have some; `LoadChart` itself makes one download at a time.
- `NormalizeURL` looks for "oci" anywhere in the URL, not in its scheme
  (`NormalizesBySchemeUnlessOCIInside`, `HostNameWithOCIInside`).
- A secret with the user name `<token>` passes the secret check and then fails the login
  (`TokenSecretsFail`). For a secret without credentials the function returns an anonymous keychain, not
  nil as documented; the login option made of it is nil (`CredentialsRoundTrip`).
- Credentials stay with their host: of a Docker configuration only an entry for the URL's very host is
  used (`DockerEntryForHost`), and a keychain made for one host gives nothing to another
  (`CredentialsStayWithHost`). A cloud provider's authenticator goes before any keychain, and one with
  nothing but an identity token does not log in at all (`AuthenticatorDecides`).
- The printed command reads back as the command exactly when release, chart or reference, repository
  URL and set values are not empty, no field holds a blank or a newline, and the last set value does not
  end in a backslash (`PrintedCommandReadsBack`). The printer quotes nothing, so a set value with a blank
  is printed and read as two words (`BlankSplitsValue`).
- The printer refuses newlines in set values, but not a backslash at the end of the last one: that turns
  the end of the command into one more continuation (`PrintedCommandShape`, `TrailingBackslashContinues`).

## Model

| member | source | states |
|---|---|---|
| `Resolver.GetLastMatchingVersionOrConstraint` | internal/helm/repository/oci_chart_repository.go:271-315 | the exact match if there is one; else a listed, parsing, matching tag, verbatim, that no other such tag exceeds; an error exactly when the constraint is invalid or nothing matches |
| `Resolver.SortDescending` | internal/helm/repository/oci_chart_repository.go:312 | the in-place sort leaves a descending permutation of the first n elements and touches nothing else |
| `Resolver.Filter` | internal/helm/repository/oci_chart_repository.go:294-306 | the loop keeps the versions of the parsing, matching tags, in listing order |
| `Resolver.HeadIsHighest` | internal/helm/repository/oci_chart_repository.go:312-314 | the head of any descending permutation of the matches is a highest match, by its original text |
| `Resolver.ActualIsReliable` | vendor/github.com/fluxcd/pkg/version/version.go:27-33 | the modelled parser keeps the original string, yields well-formed pre-releases and rejects the empty text and the star |
| `ResolverLaws.RequestDecides` | internal/helm/repository/oci_chart_repository.go:272-314 | a listed request is answered by itself; any other by the constraint it parses to: an invalid constraint, a best listed tag that satisfies it, or no match, each exactly when due |
| `ResolverLaws.LatestDecides` | internal/helm/repository/oci_chart_repository.go:281-314 | an empty or unlisted star request is answered by a best listed tag without pre-release, or by no match |
| `ResolverLaws.OrderIndependence` | internal/helm/repository/oci_chart_repository.go:271-315 | two outcomes for the same tags in any order and multiplicity fail alike, agree on an exact match, and otherwise lie in one precedence class |
| `ResolverLaws.Monotonicity` | internal/helm/repository/oci_chart_repository.go:294-314 | more tags never turn success into failure nor lower the version when none equals the request; tags that do not parse or match leave the class as it is |
| `ResolverLaws.LatestIsStable` | internal/helm/repository/oci_chart_repository.go:281-292 | an empty or star request yields a listed version without pre-release, and fails exactly when there is none |
| `ResolverLaws.SortRefinesScan` | internal/helm/repository/oci_chart_repository.go:294-314 | sorting and taking the head fails when a one-pass maximum scan finds nothing and otherwise lands in the class it finds |
| `ResolverLaws.ResolvedBySection11` | internal/helm/repository/oci_chart_repository.go:294-314 | the resolved tag has at least section 11 precedence over every matching tag but those a number beyond 64 bits decides on |
| `ResolverLaws.ScanFindsHighest` | internal/helm/repository/oci_chart_repository.go:294-314 | the one-pass scan finds a highest match, or there is none |
| `ResolverLaws.ClassIsStem` | vendor/github.com/Masterminds/semver/v3/version.go:386-431 | tags of one class are exactly the parsing tags that agree without a leading v and build metadata |
| `ChartRepository.GetTags` | internal/helm/repository/oci_chart_repository.go:195-206 | the listing of the reference without its scheme; an empty listing is an error |
| `ChartRepository.GetChartVersion` | internal/helm/repository/oci_chart_repository.go:148-191 | shortcut for versions and digests; else an error of the listing, or a chart version for an allowed resolution, with an empty tag beside a resolution error |
| `ChartRepository.ListingDecides` | internal/helm/repository/oci_chart_repository.go:170-190 | an empty listing is the listing error; else the resolved tag is built behind a colon, and a failed resolution builds the empty tag |
| `ChartRepository.ShortcutRefinesListing` | internal/helm/repository/oci_chart_repository.go:152-190 | the listing path builds the chart version of the shortcut exactly when the request is among the listed tags |
| `ChartRepository.ListingOrderIndependence` | internal/helm/repository/oci_chart_repository.go:170-190 | two listings of the same tags give the same error, or chart versions that are equal or of one precedence class |
| `ChartRepository.VerifyChart` | internal/helm/repository/oci_chart_repository.go:320-344 | each outcome exactly when it is due: verified when a verifier accepts before any fails, no signature when all decline, and the early errors in their order |
| `SemVerParsing.ParsedText` | vendor/github.com/Masterminds/semver/v3/version.go:142-194 | printing a parsed version gives the tag back but for a leading v, the original is the tag verbatim, and what is compared is the tag's stem |
| `SemVerParsing.ParsesExactlyPrinted` | vendor/github.com/fluxcd/pkg/version/version.go:27-33 | a tag parses exactly when, less a leading v, it is the text of a version with 64-bit numbers and admissible identifiers |
| `SemVerParsing.PrintedVersionParses` | vendor/github.com/Masterminds/semver/v3/version.go:68-239 | the text of a version parses back to that version |
| `SemVerParsing.LeadingVMakesNoDifference` | vendor/github.com/fluxcd/pkg/version/version.go:25-33 | the text of a version parses to it as it is and behind a v, each time with the tag as its original |
| `SemVerParsing.PrintableMeans` | vendor/github.com/Masterminds/semver/v3/version.go:607-639 | what parses in terms of characters: numbers below 2 to the 64, and identifiers over digits, letters and hyphen, numeric pre-release ones without leading zeros |
| `Strings.TrimPrefixMeans` | internal/helm/repository/oci_chart_repository.go:197 | a prefix is cut off once, and a text without it stays as it is |
| `SemVerOrder.CompareAntisymmetric` | vendor/github.com/Masterminds/semver/v3/version.go:403-431 | swapping the arguments flips the sign, and ties are exactly equal numbers and equal pre-release |
| `SemVerOrder.CompareTransitive` | vendor/github.com/Masterminds/semver/v3/version.go:403-547 | the comparison is transitive on parsed versions |
| `SemVerOrder.TiesAreSpellings` | vendor/github.com/Masterminds/semver/v3/version.go:386-431 | two tags tie exactly when they differ only in a leading v and in build metadata |
| `SemVerOrder.LexLessMeans` | vendor/github.com/Masterminds/semver/v3/version.go:580-587 | text order: a proper prefix first, else the first difference |
| `SemVerOrder.OrderFollowsSection11` | vendor/github.com/Masterminds/semver/v3/version.go:403-547 | versions compare as section 11 says exactly when no such pair of identifiers decides |
| `SemVerOrder.OversizedNumbersAreMisordered` | vendor/github.com/Masterminds/semver/v3/version.go:142-599 | two tags that parse, with pre-releases of n nines and of ten to the n, are ranked against section 11 for every n from 20 on |
| `Cache.Cache.constructor` | internal/cache/cache.go:228-238 | a new cache is empty |
| `Cache.Cache.ItemCount` | internal/cache/cache.go:46-51 | counts all items, expired or not |
| `Cache.Cache.Store` | internal/cache/cache.go:53-63 | stores the value with its deadline in 64 bits, or none |
| `Cache.Cache.Set` | internal/cache/cache.go:68-85 | replaces or inserts; fails, changing nothing, exactly when the key is new and there is no room |
| `Cache.Cache.Add` | internal/cache/cache.go:90-106 | inserts a new key only, and only with room |
| `Cache.Cache.Get` | internal/cache/cache.go:110-125 | answers the value exactly when the key is there and not expired |
| `Cache.Cache.Delete` | internal/cache/cache.go:128-132 | removes the key and nothing else |
| `Cache.Cache.Clear` | internal/cache/cache.go:137-141 | leaves nothing |
| `Cache.Cache.HasExpired` | internal/cache/cache.go:144-159 | true exactly when the key is missing or its item expired |
| `Cache.Cache.SetExpiration` | internal/cache/cache.go:163-172 | as written: reads the clock and changes no item |
| `Cache.Cache.GetExpiration` | internal/cache/cache.go:177-192 | the time left by a second clock reading, after the lock, for an item live at the first; nothing is changed |
| `Cache.Cache.DeleteExpired` | internal/cache/cache.go:195-203 | with keys in any order and one clock reading for each item with a deadline: what was expired at the start is gone, what is live at the end stays, the rest is unchanged |
| `Cache.RunJanitor` | internal/cache/cache.go:210-221 | sweeps on every tick up to the first stop signal and touches nothing afterwards; no item is left that had expired when an answered tick was due |
| `CacheSpec.WrittenLifetime` | internal/cache/cache.go:53-63 | how long a written item lives: forever without a positive expiration or with a deadline beyond 64 bits, else up to the deadline |
| `CacheSpec.SetExpirationKeepsItsPromise` | internal/cache/cache.go:161-172 | later Gets answer as documented exactly when the key is missing or old and new deadline make no difference from now on |
| `CacheSpec.RemainingMeaning` | internal/cache/cache.go:174-192 | when GetExpiration answers zero, less, or the time left, for every 64-bit deadline, wrapped ones included |
| `CacheSpec.RemainingOfWritten` | internal/cache/cache.go:53-63 | for an item as Set and Add write it GetExpiration answers minus the clock without a deadline, else the time to the deadline asked for, even beyond 64 bits |
| `CacheRuns.SetExpirationIsLost` | internal/cache/cache.go:163-172 | runs in which a Get after SetExpiration misses an item that was documented to live on |
| `CacheRuns.RunsAreFaithful` | internal/cache/cache.go:53-203 | in every run the item of a key is that of the last write, or missing when that was deleted or has expired |
| `CacheRuns.LookupSeesLastWrite` | internal/cache/cache.go:110-125 | a key is usable at a time exactly when its last write is not expired then, and with that value; sweeps play no part |
| `CacheRuns.ReadsSeeLastWrite` | internal/cache/cache.go:110-192 | every Get, HasExpired and GetExpiration of a run answers by the last write before it |
| `CacheRuns.CapacityHolds` | internal/cache/cache.go:68-106 | no run exceeds the capacity, and without a positive one the cache stays empty |
| `CacheSweeps.SweepsAreTransparent` | internal/cache/cache.go:195-221 | two runs of the same calls at the same times, with sweeps anywhere, give the same answers when the keys fit and no Add meets an expired last write |
| `CacheSweeps.WithoutSweepsIsRun` | internal/cache/cache.go:195-221 | leaving the sweeps out of such a run gives a run with the same answers |
| `CacheSweeps.SweepChangesAnswer` | internal/cache/cache.go:68-203 | a sweep just before a call changes its answer exactly when something has expired and the call counts the items, adds an expired key, or meets a full cache with a new key |
| `CacheSweeps.AddAnswers` | internal/cache/cache.go:90-106 | Add answers by the last write of its key, and by the room when there is none; only an expired last write leaves it to the sweeps |
| `CacheSweeps.AddSeesSweeps` | internal/cache/cache.go:90-106 | after every run whose keys fit and whose Adds met no expired last write, but which leaves one, both answers of Add are within reach |
| `CacheSweeps.SetAnswers` | internal/cache/cache.go:68-85 | Set is done when its key is alive or every remembered key has room, and full when the live keys fill the cache without it |
| `CacheSweeps.SetSeesSweepsWhenFull` | internal/cache/cache.go:68-85 | in every state full for a new key that holds an expired item both answers of Set are within reach |
| `CacheLock.LockDiscipline` | internal/cache/cache.go:46-203 | no writer overlaps a reader or writer, and whoever unlocks holds the lock in that mode |
| `CacheLock.ReadersShare` | internal/cache/cache.go:46-203 | exactly the reading calls get in beside readers |
| `CacheLock.AnswerReadsClockAgain` | internal/cache/cache.go:190-191 | GetExpiration answers by the clock as it reads after the unlock |
| `CacheLock.EveryPathReleases` | internal/cache/cache.go:46-203 | the lock is held by exactly the threads inside their critical sections, each in its mode, and by nobody else |
| `CacheLock.NobodyIsStuck` | internal/cache/cache.go:46-203 | a thread is only ever held up by a lock that another thread holds |
| `CacheOrder.InterleavingsAreSequential` | internal/cache/cache.go:46-221 | every interleaving is a sequential run in lock order, ending in the present items whenever no sweep is under way; its entries are one to one the calls that returned, with answers they may give there, and those on their way out; a call that returned before another began comes first |
| `CacheOrder.CallKept` | internal/cache/cache.go:46-221 | a thread stays in its call until that returns |
| `CacheLock.ConcurrentGetSeesLastWrite` | internal/cache/cache.go:110-125 | in every interleaving a Get answers by the last write before it in lock order |
| `Transport.Pool.Get` | internal/transport/transport.go:53-78 | a pooled transport, then no longer pooled, or a new one; without TLS settings |
| `Transport.NewOrIdle` | internal/transport/transport.go:84-89 | a transport that is not in the pool, with the given TLS settings; no pooled one changes |
| `Transport.Release` | internal/transport/transport.go:93-102 | the transport is pooled without TLS settings; nil is refused |
| `Slices.Append` | internal/helm/repository/oci_chart_repository.go:225 | the result is the visible elements and the new one, written behind them in the shared array when there is spare capacity and else into a new one, by the very function that the interleaved downloads use |
| `ChartDownload.OCIChartRepository.DownloadChart` | internal/helm/repository/oci_chart_repository.go:212-230 | one call, with the configured options, an own transport and the repository's TLS settings; then the transport is back, cleared, and the options are as before; early errors touch nothing |
| `ChartDownload.OCIChartRepository.Clear` | internal/helm/repository/oci_chart_repository.go:258-267 | removes the credentials file, and forgets it unless the removal failed |
| `Downloads.PoolProtocol` | internal/transport/transport.go:84-102 | in every interleaving a transport is in one place, pooled ones have no TLS settings, calls see their own settings, and each finished download has given back its own transport once and nothing else |
| `Downloads.AloneAsDownloadChart` | internal/helm/repository/oci_chart_repository.go:212-230 | a download with nobody in between does as a whole what the method does |
| `Downloads.VisibleOptionsNeverChange` | internal/helm/repository/oci_chart_repository.go:224-225 | no interleaving changes the visible options of the repository |
| `Downloads.NonOverlappingDownloadsAreIsolated` | internal/helm/repository/oci_chart_repository.go:224-229 | downloads one after the other each see the configured options and their own transport |
| `Downloads.SpareCapacityMixesTransports` | internal/helm/repository/oci_chart_repository.go:224-229 | with spare capacity two overlapping downloads can end with one calling on the other's transport |
| `Downloads.IsolatedExactlyWithoutSpare` | internal/helm/repository/oci_chart_repository.go:224-229 | every call in every interleaving sees its own transport exactly when the slice has no spare capacity |
| `Auth.CredentialsRoundTrip` | internal/helm/registry/auth.go:50-127 | a login option carries exactly the secret's credentials for the URL's host, when both are given and the name is not the reserved one; no option exactly without credentials |
| `Auth.KeychainMeans` | internal/helm/registry/auth.go:50-86 | for every URL and secret why no keychain is made, and when it is the anonymous one |
| `Auth.AuthenticatorDecides` | main.go:360-370 | an authenticator goes before any keychain; it logs in with both name and password, and not at all with neither |
| `Auth.AuthenticatorErrors` | internal/helm/registry/auth.go:111-127 | an authenticator that fails, or with only one of name and password, is an error |
| `LoadChart.ClientGenerator` | internal/helm/registry/client.go:30-60 | a client backed by a new file exactly for a login; when no client can be made the file is removed, and a failing removal is a second cause |
| `LoadChart.Connect` | main.go:197-252 | the first failing step is the error, what is registered for clean-up is what the protocol has pending, and the login is with the given option |
| `LoadChart.Prepare` | main.go:140-191 | the checks before the client, in order, and the login option |
| `LoadChart.Fetch` | main.go:298-325 | version, download, archive in this order on a client that may use the registry |
| `LoadChart.LoadChart` | main.go:122-326 | fails with the first failing check; every trace keeps the protocol and is cleaned up behind itself; every login is with the credentials that secret or provider hold for the URL, and a successful load has one exactly when they hold any; success has resolved and downloaded with the right client |
| `LoadChart.LoginOptionMeans` | main.go:152-183 | the login option carries exactly the non-empty credentials of the secret for the URL's host, or of the provider's authenticator |
| `LoadChart.LoginErrorsMean` | main.go:152-183 | when the secret, the provider or the login option is what fails |
| `LoadLaws.OutcomeMeans` | main.go:122-326 | of every outcome the condition on the outside world under which it comes about |
| `LoadLaws.ContextFrames` | main.go:137-138 | a call that found its repository opens its context first and cancels it last, each once |
| `LoadChart.OutcomeIsFirstFailure` | main.go:122-326 | the outcome is success when all checks hold and else the error of the first that does not |
| `LoadChart.LoginsAreBacked` | main.go:197-252 | a login is attempted only on a client backed by a temporary file created before |
| `LoadChart.FilesAreRemovedOnce` | main.go:197-208 | every temporary file gets exactly one removal attempt, after its creation |
| `LoadChart.LogoutPrecedesRemoval` | main.go:202-252 | a successful login is followed by exactly one logout of that client, and the removal of its file comes after |
| `LoadChart.RegistryUsedWhileLoggedIn` | main.go:246-325 | a client with credentials is only used between its login and its logout |
| `URLs.NormalizeIsIdempotent` | internal/helm/repository/utils.go:38-48 | normalising twice is normalising once, for every string |
| `URLs.TrailingSlashesDoNotMatter` | internal/helm/repository/utils.go:38-48 | any number of trailing slashes on a prefix gives the same result |
| `URLs.NormalizeKeepsVerdict` | internal/helm/repository/utils.go:38-64 | the verdict is the same before and after exactly unless the URL is a bare http or https scheme and slashes; that becomes invalid |
| `URLs.VerdictMeans` | internal/helm/repository/utils.go:54-64 | a URL is accepted exactly when it starts with oci, https:// or http://, and refused as an alias exactly behind an at sign |
| `URLs.NormalizesBySchemeUnlessOCIInside` | internal/helm/repository/utils.go:37-48 | the code agrees with its documentation exactly on URLs that start with oci or do not contain it |
| `FluxPrinter.FluxCDCommandPrinter.Do` | fluxcd/main.go:36-162 | writes exactly the rendered command for the source's URL, joined reference or name and the values file or changed values, or a prefix of it when the write fails; any other failure is the first one there is and writes nothing |
| `FluxPrinter.FluxCDCommandPrinter.TargetMeans` | fluxcd/main.go:46-109 | the chart comes from the Helm repository's URL or the source's name, by a joined reference exactly for an OCI URL |
| `FluxPrinter.FluxCDCommandPrinter.ValuesMean` | fluxcd/main.go:123-151 | a values file, or exactly the changed values when none holds a newline |
| `FluxText.PrintedText` | fluxcd/main.go:66-160 | the text of every command, character by character, in all branch combinations |
| `FluxPrinter.FluxCDCommandPrinter.PrintValues` | fluxcd/main.go:123-155 | the values part completes the command, including the truncation, or fails with the reason; the values file is kept |
| `FluxPrinter.PrintSets` | fluxcd/main.go:141-151 | one line for each value; fails exactly on a newline, naming the key of the first such value |
| `FluxCommand.TruncationRemovesContinuation` | fluxcd/main.go:152-155 | three characters less and a newline is exactly the command without its last continuation, with or without set values |
| `FluxRoundTrip.PrintedCommandReadsBack` | fluxcd/main.go:66-160 | reading the printed words gives the command back, in all branch combinations, exactly when nothing needed is empty, no field holds a blank or a newline, and the last set value does not end in a backslash |
| `FluxRoundTrip.ReadIsPrinted` | fluxcd/main.go:66-160 | words that read as a command are the very words printed for it |
| `FluxRoundTrip.BlankSplitsValue` | fluxcd/main.go:141-151 | a set value with a blank in it passes the newline check and does not read back |
| `FluxShape.PrintedCommandShape` | fluxcd/main.go:66-160 | every newline but the last follows a blank and a backslash and the last ends the text behind no backslash, exactly when no field holds a newline that is no continuation and the last set value does not end in a backslash |
| `FluxShape.ShapeWithoutNewlines` | fluxcd/main.go:137-160 | without newlines in the fields, as the printer demands of set values, only the end of the last set value decides |
| `FluxShape.TrailingBackslashContinues` | fluxcd/main.go:137-160 | a set value that ends in a backslash breaks the shape |

## Left out

- SemVerOrder.OrderFollowsSection11: the order meets section 11 except on identifiers beyond 64 bits, because the code compares those as text; the exact condition is stated and `OversizedNumbersAreMisordered` is an instance.
- CacheSpec.SetExpirationKeepsItsPromise: the documented effect is not achieved by the code; the lemma says exactly when no later Get can tell. `GetExpiration` answers the old deadline in any case.
- CacheSweeps.SweepsAreTransparent: `ItemCount` and an `Add` that meets an expired last write are excluded, because they do see sweeps (`SweepChangesAnswer`, `AddSeesSweeps`; `ItemCount` is documented to include items not yet cleaned up).
- CacheLock.NobodyIsStuck: some thread can always go on; that a waiting thread gets its turn is up to the scheduler and to the fairness of Go's lock.
- Resolver.SortDescending: an insertion sort by neighbour swaps, which is what Go's sort does on short slices; the algorithm for longer ones is not modelled. The other results use only that the outcome is a descending permutation.
- Resolver.Filter: a slice with room for every tag is an array and a count, and a slice of pointers an array of values.
- Cache.RunJanitor: ticks, with the times they are due, and the stop signal come as a list; the ticker, the finalizer that sends the signal and the interval check in New are not modelled.
- FluxRoundTrip.PrintedCommandReadsBack: the reader knows blanks, newlines and joined lines; quotes, a backslash before another character and other shell syntax have no meaning to it.
- LoadChart.LoadChart: the client options are not part of the trace; what the options slice may share is in `Downloads`.
- The constraint parser and its Check method: any parser and any predicate, except for `*`.
- URL parsing and recomposition, Docker configuration files, reference parsing: parameters.
- sync.Pool beyond handing out a pooled or new transport, taking one back and dropping some at will.
- Kubernetes reads, secret fetching, OIDC login, the registry and the getter: an arbitrary answer each.
- The clock is taken to never go back; wall-clock adjustments are not modelled.
- Error texts, and the error that the credential helper could carry, which is never set.
- NewOCIChartRepository's option functions, the verifier and getter packages, metrics, cache-check, chart-syncer and private-oci: wiring and I/O around the modelled code.
- Merging and diffing of values for the printer: the changed values are an input, each of the form key=value.
