# goupd auto-update core in Dafny

goupd is a self-update library for Go programs. A program is built with four
constants: `GIT_TAG`, `DATE_TAG`, `PROJECT_NAME` and `HOST`. When it sees a
peer running a newer build, it asks the update server for the `LATEST`
manifest. If the manifest names another revision, it fetches the release's
architecture list. It then downloads the payload for its own `GOOS_GOARCH`
and replaces its own executable on disk.

This project models the three pieces of `update.go` that make these decisions:

- **Version** (`version.dfy`): `SignalVersion`, the peer-version
  pre-filter. It is a predicate that says whether a check would be started.
  Build stamps are compared with Go's byte-wise string order.
- **AutoUpdate** (`autoupdate.dfy`): `RunAutoUpdateCheck`, modelled in two
  parts:
  - the spec function `AutoUpdateCheck`, which gives the branch the check
    ends in (`NotConfigured`, `FetchError`, `ParseError`, `UpToDate`,
    `NoArch`, `InstallError` or `Installed`) and the URLs requested in order;
  - a method of the same shape, which runs the `found` loop over the
    architecture tokens (`FindArch`) and calls the installer on a mutable
    file system. It is proved to end exactly as the spec function says.

  The three HTTP responses are inputs. For the manifest and the
  architecture list, `None` is a failed request or a failed read of the
  body. For the payload, `None` is only a failed `http.Get`: its body is
  read and decompressed while `io.Copy` fills `.name.new`, so a read or
  bzip2 error there is the installer's `CopyFails(k)`. The check then ends
  in `InstallError` with a partly written `.name.new` left behind. The
  manifest parse is `SplitN(TrimSpace(body), " ", 3)`, which splits on
  single spaces. The architecture list is
  `Split(TrimSpace(body), " ")`.
- **Installer** (`install.dfy`): `installUpdate`. The file system is a class
  with two fields:
  - a `map` from paths to byte contents;
  - a ghost history of every state it has been in.

  Each call may fail, and a `Faults` value says which ones do, so every
  combination of failures is covered. The sequence is:
  1. create and fill `.name.new`;
  2. rename the executable to `.name.old`;
  3. rename `.name.new` onto the executable, and on failure try a revert;
  4. remove `.name.old`.

  The method is proved to produce the trace of states that the function
  `Install` describes. The safety lemmas are stated over every state of that
  trace.
- **GoStrings** (`gostrings.dfy`): the parts of Go's `strings` package and
  string order that these decisions rely on. They are defined independently,
  and their round-trip and shape properties are proved:
  - `TrimSpace`, using Unicode white space as in `unicode.IsSpace`;
  - `Split` and `SplitN` on a single space, built from `Cut`;
  - `Join`;
  - `<=` and `<` on strings.

Three behaviours of the code are easy to misread, and the model follows the
code:

- The manifest is split on single spaces into at most three fields. The
  third field keeps any further spaces, and runs of spaces give empty fields.
  It is not split on any white space into exactly three tokens.
- The executable path is empty between moving the executable away and moving
  the new file onto it. It also stays empty when the forward rename and the
  revert both fail. In every such state `.name.old` holds the original, which
  `InstallNeverLosesOriginal` and `ExeAbsenceWindow` state.
- The architecture list is also split on single spaces only. A list whose
  identifiers are separated by newlines or tabs, such as
  `linux_amd64\nwindows_amd64`, is one token, so no platform in it is found
  (`NewlineSeparatedListIsOneToken`).

## Model

| member | source | states |
|---|---|---|
| Version.SignalVersionTriggers | update.go:21-36 | A check is started iff the peer's tag is non-empty, differs from GIT_TAG, and its build stamp is strictly greater than DATE_TAG in byte-wise order |
| Version.EmptyTagNeverTriggers | update.go:22-24 | An empty peer tag never starts a check, whatever the stamp |
| Version.OwnStampNeverTriggers | update.go:30-32 | A peer with our own DATE_TAG never starts a check |
| Version.OlderStampNeverTriggers | update.go:30-32 | A peer stamp `<=` DATE_TAG never starts a check |
| Version.LaterStampStillTriggers | update.go:30-35 | If a stamp starts a check, every later stamp with the same tag does too |
| GoStrings.LessEqReflexive | update.go:30 | Go's `<=` on strings is reflexive |
| GoStrings.LessEqAntisymmetric | update.go:30 | Go's `<=` on strings is antisymmetric |
| GoStrings.LessEqTransitive | update.go:30 | Go's `<=` on strings is transitive |
| GoStrings.LessIsNotLessEq | update.go:30 | `a < b` iff not `b <= a`: the order is total |
| GoStrings.CountZero | update.go:64 | No space is counted iff the string has no space |
| GoStrings.CutSplits | update.go:64 | Cut finds a space iff there is one; the part before has no space; before + " " + after is the string; one space fewer is left |
| GoStrings.CutAt | update.go:64 | Cutting `a + " " + b` with no space in `a` gives exactly (a, b) |
| GoStrings.TrimLeftCuts | update.go:64 | TrimLeft keeps a suffix and removes only white space |
| GoStrings.TrimLeftStart | update.go:64 | What TrimLeft keeps does not start with white space |
| GoStrings.TrimRightCuts | update.go:64 | TrimRight keeps a prefix that does not end in white space and removes only white space |
| GoStrings.TrimSpaceCuts | update.go:64 | TrimSpace is a slice of the input with no white space at either end, and everything cut off is white space |
| GoStrings.TrimSpaceOfTrimmed | update.go:64 | A string without white space at either end is its own TrimSpace |
| GoStrings.TrimSpaceIdempotent | update.go:64 | Trimming twice equals trimming once |
| GoStrings.SplitPieces | update.go:96 | Split gives one more piece than there are spaces, and no piece contains a space |
| GoStrings.JoinOfSplit | update.go:96 | Joining Split's pieces with " " gives the string back |
| GoStrings.SplitOfJoin | update.go:96 | Split undoes Join when no piece contains a space |
| GoStrings.SplitNPieces | update.go:64 | SplitN(s, n) gives min(n, spaces + 1) pieces; all but the last are space-free, and the last is too when fewer than n pieces are made |
| GoStrings.JoinOfSplitN | update.go:64 | Joining SplitN's pieces with " " gives the string back |
| GoStrings.SplitNIsSplit | update.go:64 | With fewer than n spaces, SplitN equals Split |
| AutoUpdate.ParseFieldsIsSplitN | update.go:64-65 | Cutting twice gives the three fields of SplitN(t, " ", 3), and None exactly when SplitN does not give three fields |
| AutoUpdate.ParseManifestIsSplitN | update.go:64-68 | The manifest parse is SplitN(TrimSpace(body), " ", 3) accepted only with three fields |
| AutoUpdate.ParseFieldsSucceeds | update.go:64-68 | Parsing a trimmed text succeeds iff it has at least two spaces; the first two fields are space-free and the fields joined by spaces give the text |
| AutoUpdate.ParseManifestSucceeds | update.go:64-68 | The manifest is accepted iff its trimmed body has at least two spaces; then date and tag are space-free and date + " " + tag + " " + prefix is the trimmed body |
| AutoUpdate.ParseManifestFields | update.go:64-68 | Any trimmed body of the form `date tag rest`, with date and tag space-free, parses to exactly those fields, even when rest has spaces |
| AutoUpdate.FindArch | update.go:93-101 | The `found` loop ends with found iff `myself` is one of the tokens |
| AutoUpdate.ArchListMembership | update.go:93-101 | For a list written as non-empty, white-space-free ids joined by spaces, `myself` is among its tokens iff it is one of the ids |
| AutoUpdate.NewlineSeparatedListIsOneToken | update.go:96-101 | Two white-space-free identifiers separated by a newline form a single token, and neither identifier is found |
| AutoUpdate.RunAutoUpdateCheck | update.go:42-128 | Ends with the branch and requested URLs of AutoUpdateCheck, with installUpdate's success as input; returns true iff it installed; the file system changes only when the install runs, and then as the Install trace says |
| AutoUpdate.ConfiguredFetchesLatestFirst | update.go:47-62 | NotConfigured iff PROJECT_NAME is "unconfigured", and then nothing is requested; otherwise HOST + PROJECT_NAME + "/LATEST" is requested first, and a failed fetch stops there |
| AutoUpdate.ManifestRejectedIff | update.go:64-68 | A fetched manifest is rejected iff its trimmed body has fewer than two spaces, and then only the LATEST URL was requested |
| AutoUpdate.SameTagIsUpToDate | update.go:70-73 | A manifest carrying our GIT_TAG ends the check as up to date after one request, whatever the later responses |
| AutoUpdate.ArchDecidesPayload | update.go:77-109 | After the arch list is fetched: the second URL is HOST + PROJECT_NAME + "/" + prefix + ".arch"; NoArch iff our id is not a token; the payload URL HOST + PROJECT_NAME + "/" + prefix + "/" + PROJECT_NAME + "_" + GOOS + "_" + GOARCH + ".bz2" is requested iff it is |
| AutoUpdate.InstalledIff | update.go:42-128 | The check installs iff it is configured, every fetch succeeds, the manifest parses with a different tag, our id is listed and installUpdate returns nil |
| AutoUpdate.OnlyRequestedResponsesMatter | update.go:42-128 | The result depends only on the responses to the URLs actually requested, and on the install result only when the install is reached |
| AutoUpdate.InstallNeedsThreeRequests | update.go:108-122 | The install is reached iff all three URLs were requested and the payload fetch succeeded |
| AutoUpdate.UrlsDiffer | update.go:51-109 | The LATEST, .arch and .bz2 URLs are pairwise different and all start with HOST + PROJECT_NAME |
| AutoUpdate.RequestedUrlsDistinct | update.go:51-109 | No URL is requested twice in one check, and every requested URL starts with HOST + PROJECT_NAME |
| Installer.PathsDistinct | update.go:143-161 | The executable, `.name.new` and `.name.old` are three different paths |
| Installer.FileSystem.Create | update.go:148-158 | Opening with O_CREATE/O_TRUNC and copying: the path holds the payload, or the copied prefix when the copy fails, or is untouched when the open fails; the matching error is returned |
| Installer.FileSystem.Rename | update.go:163-173 | A rename succeeds iff not failed and the source exists; the source then disappears and the destination gets its contents |
| Installer.FileSystem.Remove | update.go:176-180 | A removal succeeds iff not failed and the path exists; the path then disappears |
| Installer.InstallUpdate | update.go:130-183 | Performs exactly the sequence of states and returns exactly the error given by Install |
| Installer.InstallErrorIff | update.go:130-183 | installUpdate returns nil iff the write and both renames succeed (the executable existing) |
| Installer.InstallFrame | update.go:130-183 | No state of a run changes any path other than the executable, `.name.new` and `.name.old` |
| Installer.InstallNeverLosesOriginal | update.go:130-183 | In every state of a run, the executable path holds the original or the payload, or `.name.old` holds the original |
| Installer.InstallEarlyFailure | update.go:148-166 | If writing `.name.new` or the first rename fails, an error is returned and the executable and `.name.old` are as they were: each exists iff it did before, with the same contents |
| Installer.InstallForwardRenameFails | update.go:168-173 | If the forward rename fails, an error is returned; a successful revert restores the original at the executable path; if the revert fails, the executable path is empty and `.name.old` holds the original |
| Installer.InstallSuccess | update.go:168-182 | When both renames succeed, nil is returned; the executable holds exactly the payload, `.name.new` is gone, and `.name.old` remains (with the original) iff its removal failed |
| Installer.ExeMissingOnlyIfBothRenamesFail | update.go:163-173 | At the end of a run the executable path is empty only when the forward rename and the revert both failed |
| Installer.ExeAbsenceWindow | update.go:163-173 | The executable path is empty in exactly the states between moving it away and moving a file back onto it |

## Left out

- HTTP requests, `ioutil.ReadAll` and `resp.Body.Close` are network I/O. Each response is an `Option` input, where `None` is a failed request or read.
- bzip2 decompression is a foreign codec. The decompressed payload is opaque bytes. A read or decompression error of the payload during `io.Copy` is one of the copy failures (`CopyFails(k)`).
- `autoUpdateLock` and the `go RunAutoUpdateCheck()` goroutine are concurrency. `SignalVersion` returns whether the check would be started, and checks are not interleaved.
- `os.Executable` and `filepath.EvalSymlinks` are OS queries, and their errors are not modelled. The resolved executable is given as `dir` and `name`. `filepath.Join` is modelled only for a clean directory and a single element.
- `restartProgram` is process control, so the model ends at `Installed`.
- `hideFile` is OS-specific and changes no contents, so it is a no-op.
- Logging, the 0755 permission bits and the double `Close` of the new file have no effect on the modelled state.
- `runtime.GOOS` and `runtime.GOARCH` are a `Platform` parameter.
- Strings are sequences of code points. Go compares UTF-8 bytes, which orders valid UTF-8 the same way. Invalid UTF-8 is not modelled.
- GoStrings.SplitN: only `n >= 1` is modelled, because update.go calls it with 3.
