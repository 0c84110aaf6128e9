# install-ispc-action, modelled in Dafny

This GitHub Action installs the ISPC compiler (Intel SPMD Program Compiler)
on a CI runner. It resolves the requested version, with "latest" or an empty
input meaning the newest release tag minus its `v`. It checks the platform
name and the architecture, and names the release archive, its download URL
and the `bin` directory inside it. It picks `unzip` or `tar` by the archive's
extension. After unpacking, it runs `ispc --version` and accepts the install
only when the first `N.N.N` in the output equals the requested version.

The model covers every decision the action makes outside downloading and
running processes. Each one is a pure Dafny function, with lemmas about it:

- `results.dfy`, module `Results`: option and result wrappers.
- `errors.dfy`, module `Errors`: the errors the action throws and the message each one reports.
- `platforms.dfy`, module `Platforms`: `validatePlatform` and `validateArch`, with `archMap` and `defaultArch` written as maps.
- `paths.dfy`, module `Paths`: Node's `path.extname` under POSIX rules.
- `artifacts.dfy`, module `Artifacts`: the names built in `getIspc`.
- `archives.dfy`, module `Archives`: the extension dispatch of `extractFile`.
- `versions.dfy`, module `Versions`: removing the tag's `v`, the pattern `([0-9]+)\.([0-9]+)\.([0-9]+)` with JavaScript `match` semantics, and the post-install check.
- `install.dfy`, module `Install`: the top-level flow in main.js's order.

These inputs are parameters, because the action gets them through I/O:

- `latestTag`: the release tag the index returned, or `None` when it did not answer with status 200.
- `exitCode`: the tool's exit status, or `None` when the process ended without one.
- `output`: the tool's standard output.

## Model

| member | source | states |
|---|---|---|
| Errors.Message | src/main.js:75-175 | every thrown error has a message, except the engine's TypeError when the output holds no version |
| Errors.MessageNamesInput | src/main.js:75-175 | each message carries the offending platform, architecture, extension, executable path or versions at a fixed place |
| Platforms.ValidatePlatform | src/main.js:80-90 | accepted exactly when the input is linux, macOS or windows, and then returned unchanged; anything else, the empty text included, fails with UnsupportedPlatform(input) |
| Platforms.PlatformListRendered | src/main.js:81-87 | the list quoted in the unsupported-platform message is the accepted list joined with `,` |
| Platforms.ValidatePlatformOfName | src/main.js:80-90 | each platform's own name is accepted and yields that platform |
| Platforms.ValidateArch | src/main.js:93-120 | an empty input gives universal on macOS and "no architecture" on linux and windows, without error; a non-empty input succeeds exactly when it is in the platform's archMap list, and is then returned unchanged; otherwise UnsupportedArch(platform, input); any architecture returned is in archMap |
| Platforms.ValidateArchRange | src/main.js:94-119 | the accepted architectures per platform are exactly linux {none, oneapi, aarch64}, macOS {x86_64, arm64, universal} and windows {none}, in both directions |
| Platforms.WindowsRejectsEveryArch | src/main.js:116-118 | windows has no archMap entry, so every non-empty architecture is rejected |
| Platforms.X86OnlyOnMac | src/main.js:94-103 | x86_64 is not normalised: linux and windows reject it and macOS keeps it |
| Paths.Extname | src/main.js:66 | extname is empty, or a dot followed by dot-free, slash-free text that ends the path once trailing slashes are dropped |
| Paths.ExtnameOfDotfile | src/main.js:66 | a last segment whose only dot is its first character (`.bashrc`, `.`) has extname empty |
| Paths.ExtnameOfDotDot | src/main.js:66 | the last segment `..` has extname empty |
| Paths.ExtnameOfTail | src/main.js:66 | a name ending in non-empty slash-free text and then `.w` has extension `.w`, whatever precedes it |
| Paths.ExtnameOfTrailingDot | src/main.js:66 | a name ending in a dot after non-empty slash-free text other than `.` has extension `.` |
| Paths.ExtnameIgnoresTrailingSlashes | src/main.js:66 | appending slashes to a path leaves its extension unchanged |
| Artifacts.Locate | src/main.js:124-129 | the archive name is `ispc-v<version>` followed by a tail fixed by the platform and architecture; the URL is the release base, `v<version>/`, then the archive name, so it ends with the archive name |
| Artifacts.BinDirIsArchiveStem | src/main.js:131-135 | apart from oneapi, the bin directory is the archive name without its extension, plus `/bin` |
| Artifacts.OneapiBinDirDropsSuffix | src/main.js:131-135 | for oneapi the archive name carries `-oneapi` and the bin directory is the plain linux one |
| Artifacts.ExtnameOfOutFile | src/main.js:125-130 | for every version, the archive name's extname is `.zip` on windows and `.gz` elsewhere |
| Artifacts.OutFileInjective | src/main.js:124-129 | two accepted requests that name the same archive have the same version, platform and architecture |
| Archives.CommandLine | src/main.js:69-72 | the command is the tool's program (`unzip` or `tar xvf`), a space, then the file as its last argument |
| Archives.ExtractFile | src/main.js:64-78 | `.zip` runs unzip and `.gz` runs tar on the file; every other extension, empty included, fails with UnexpectedExtension(ext) |
| Versions.StripTag | src/main.js:146-148 | at most one leading `v` is removed, and only when the tag starts with `v` |
| Versions.FirstMatch | src/main.js:165 | the search returns the first start at or after the given one where the pattern matches, or none when no later start matches |
| Versions.FindVersion | src/main.js:165-166 | `output.match(...)[0]`, or none where `match` returns null; whatever it returns is `digits.digits.digits`, and Versions.FindVersionSpec gives its full contract |
| Versions.FindVersionSpec | src/main.js:165-166 | the version read from the output is its leftmost, then longest, match of `digits.digits.digits`; none is read only when no substring matches |
| Versions.FindVersionAfter | src/main.js:165-166 | a version printed after digit-free text and not followed by a digit is the one read |
| Versions.CheckInstalled | src/main.js:163-176 | success exactly when the exit status is 0 and the version read equals the requested one; otherwise RunFailed, then NoVersionInOutput, then VersionMismatch naming both versions |
| Versions.CheckedVersionIsTriple | src/main.js:163-172 | only a `digits.digits.digits` version can pass the check |
| Versions.CheckComparesReported | src/main.js:164-172 | when the output reports version `found`, the check passes if `found` is the requested version and otherwise fails with VersionMismatch(requested, found) |
| Versions.PatchMismatchFails | src/main.js:167-172 | output reporting 2.3.0 fails an install of 2.3.1 |
| Install.ResolveVersion | src/main.js:154-157 | a given version is used as is; an empty input or "latest" takes the latest tag with at most one leading `v` removed (Versions.StripTag), or fails with LatestQueryFailed when the query fails |
| Install.TagRoundTrip | src/main.js:146-148 | removing the `v` undoes `v`-prefixing, and prefixing restores a `v`-tag |
| Install.ExeSuffix | src/main.js:160 | the executable suffix is `.exe` exactly on windows and empty elsewhere |
| Install.Prepare | src/main.js:152-162 | in main.js's order: the version error comes first, then the platform error, then the architecture error; once version and platform pass, a plan exists exactly when the architecture is accepted, so extractFile's error branch is unreachable; a plan holds the resolved version, the platform named by the input, the accepted architecture, getIspc's names, the executable path, and unzip for windows archives and tar for all others |
| Install.Install | src/main.js:152-180 | a failed plan is the run's error; otherwise the run fails with the check's error or returns the bin directory |
| Install.InstallSucceedsIff | src/main.js:161-177 | a run succeeds exactly when the inputs resolve, the tool exits 0 and prints the resolved version first; the PATH entry is then that version's bin directory, and the version is `digits.digits.digits` |
| Install.LatestTagIsDownloaded | src/main.js:124-156 | with "latest" requested and a `v`-tag returned, the download URL points into exactly that tag's release directory |
| Install.UnsupportedPlatformFails | src/main.js:158 | an unsupported platform such as solaris fails the run with UnsupportedPlatform |

## Behaviour worth knowing

- Names and URLs embed `v<version>`. The bin directory is `<archive name without extension>/bin` in the working directory, except for oneapi, whose bin directory drops `-oneapi`.
- The platform input is required; nothing is autodetected. An empty architecture input gives `universal` on macOS; linux and windows have no `defaultArch` entry, so they get no architecture.
- `x86_64` is accepted on macOS only; linux and windows reject it.
- The version input is used as given. Only the post-install check ends up requiring `N.N.N` (`Versions.CheckedVersionIsTriple`).
- The latest version comes from the release index alone. A failed query is an error.
- Tarballs are recognised by the extname `.gz`, since `.tar.gz` is not an extname.

## Left out

- Downloading (`getFileTo`, src/main.js:9-38) is network and file I/O: HTTPS requests, following 301/302 redirects, and buffering chunks before writing them. Two quirks of it are not modelled. On a non-200 status the promise is rejected but the handler does not return. The chunks are written to the file only once the response ends. No download error appears among the model's errors.
- Running processes (`exec`, src/main.js:40-62) is a child process with event callbacks. So is its rejection with a plain object that has no message. The tool's exit status and output are parameters instead.
- The `unzip` and `tar` runs are left out. `extractFile` ignores their result, so a failed unpack goes undetected there. `Archives.ExtractFile` returns the command line it would run.
- `path.resolve` on the bin directory and the executable depends on the working directory. The model keeps the relative paths, so `RunFailed` and the PATH entry carry those.
- The release-index query in `getLatestVersion` (src/main.js:140-145) is network I/O. The model only tells a tag apart from a non-200 answer. A rejected fetch, a body that is not JSON, and a missing `tag_name` are not told apart.
- `@actions/core` is the binding to the CI platform: reading inputs, `addPath` and `setFailed`. Its input trimming is left out.
- Install.Prepare: an empty platform input is stopped by `core.getInput`'s required-input check, with that library's own message, before `validatePlatform` sees it. The model reports `UnsupportedPlatform("")` instead.
- Platforms.ValidateArch: it is modelled only on the three validated platforms, the only ones main.js passes it (src/main.js:158-159). JavaScript's `in` and property lookup on inherited keys such as `toString` are not modelled.
- Errors.Message: the TypeError thrown when the output holds no version (src/main.js:166) has an engine-specific message, which is not modelled.
- Paths.Extname: it follows Node's POSIX rules. On Windows runners Node's win32 rules also split on `\` and drive letters. The archive names built here hold neither unless the version text does.
- Async sequencing and the success log line carry no decision and are left out.
