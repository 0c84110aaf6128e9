/**
 * The action's top-level flow: resolve the version, validate platform and
 * architecture, name the artifact, pick the unpacker, and accept the install
 * only when the unpacked `ispc` reports the requested version. Downloading,
 * unpacking and running the tool are I/O: the release tag the release index
 * returned and the tool's exit status and output are parameters here.
 */
module Install {
  import opened Results
  import opened Errors
  import opened Platforms
  import opened Paths
  import opened Artifacts
  import opened Archives
  import opened Versions

  /**
   * The version to install: the input as given, unless it is empty or
   * "latest", in which case the latest release's tag (None when the release
   * index did not answer with status 200) minus its leading `v`.
   */
  function ResolveVersion(input: string, latestTag: Option<string>): (r: Result<string, Error>)
    ensures input != "" && input != "latest" ==> r == Ok(input)
    ensures (input == "" || input == "latest") && latestTag.None? ==> r == Err(LatestQueryFailed)
    ensures (input == "" || input == "latest") && latestTag.Some? ==> r == Ok(StripTag(latestTag.value))
  {
    if input == "" || input == "latest" then
      match latestTag
      case None => Err(LatestQueryFailed)
      case Some(tag) => Ok(StripTag(tag))
    else Ok(input)
  }

  /** Tag and version convert into each other: `v` + version is the tag, and back. */
  lemma TagRoundTrip(version: string, tag: string)
    ensures StripTag(VersionTag(version)) == version
    ensures |tag| > 0 && tag[0] == 'v' ==> VersionTag(StripTag(tag)) == tag
  {
  }

  /** The executable's file name suffix: `.exe` on windows only. */
  function ExeSuffix(p: Platform): (r: string)
    ensures r == ".exe" <==> p == Windows
    ensures r == "" <==> p != Windows
  {
    if p == Windows then ".exe" else ""
  }

  /** Everything the action computes before it touches the network. */
  datatype Plan = Plan(
    version: string,
    platform: Platform,
    arch: Option<string>,
    artifact: Artifact,
    extractCommand: string,
    exe: string)

  /**
   * Steps in the order main.js runs them, each error ending the run: the
   * version first, then the platform, then the architecture, then the
   * extension check of the downloaded archive. The last never fails, since
   * windows archives are unzipped and every other one is untarred, so
   * validated inputs always produce a plan.
   */
  function Prepare(versionInput: string, latestTag: Option<string>, platformInput: string, archInput: string)
    : (r: Result<Plan, Error>)
    ensures ResolveVersion(versionInput, latestTag).Err? ==> r == Err(ResolveVersion(versionInput, latestTag).error)
    ensures ResolveVersion(versionInput, latestTag).Ok? && ValidatePlatform(platformInput).Err? ==>
      r == Err(UnsupportedPlatform(platformInput))
    ensures ResolveVersion(versionInput, latestTag).Ok? && ValidatePlatform(platformInput).Ok? ==>
      (r.Ok? <==> ValidateArch(ValidatePlatform(platformInput).value, archInput).Ok?)
    ensures ResolveVersion(versionInput, latestTag).Ok? && ValidatePlatform(platformInput).Ok?
            && ValidateArch(ValidatePlatform(platformInput).value, archInput).Err? ==>
      r == Err(ValidateArch(ValidatePlatform(platformInput).value, archInput).error)
    ensures r.Ok? ==>
      && r.value.version == ResolveVersion(versionInput, latestTag).value
      && Name(r.value.platform) == platformInput
      && ValidateArch(r.value.platform, archInput) == Ok(r.value.arch)
      && r.value.artifact == Locate(r.value.version, r.value.platform, r.value.arch)
      && r.value.exe == r.value.artifact.binDir + "/ispc" + ExeSuffix(r.value.platform)
      && r.value.extractCommand ==
         CommandLine(if r.value.platform == Windows then Unzip else Tar, r.value.artifact.outFile)
  {
    var version :- ResolveVersion(versionInput, latestTag);
    var platform :- ValidatePlatform(platformInput);
    var arch :- ValidateArch(platform, archInput);
    ValidateArchRange(platform, archInput, arch);
    ExtnameOfOutFile(version, platform, arch);
    var artifact := Locate(version, platform, arch);
    match ExtractFile(artifact.outFile)
    case Err(e) => Err(e)
    case Ok(extractCommand) =>
      Ok(Plan(version, platform, arch, artifact, extractCommand, artifact.binDir + "/ispc" + ExeSuffix(platform)))
  }

  /**
   * The whole run: the plan, then the post-install check. On success the
   * result is the bin directory handed to the PATH.
   */
  function Install(versionInput: string, latestTag: Option<string>, platformInput: string, archInput: string,
                   exitCode: Option<int>, output: string): (r: Result<string, Error>)
    ensures var plan := Prepare(versionInput, latestTag, platformInput, archInput);
      && (plan.Err? ==> r == Err(plan.error))
      && (plan.Ok? ==> r == if CheckInstalled(plan.value.version, exitCode, output, plan.value.exe).Ok?
                            then Ok(plan.value.artifact.binDir)
                            else Err(CheckInstalled(plan.value.version, exitCode, output, plan.value.exe).error))
  {
    var plan :- Prepare(versionInput, latestTag, platformInput, archInput);
    var _ :- CheckInstalled(plan.version, exitCode, output, plan.exe);
    Ok(plan.artifact.binDir)
  }

  /**
   * A run succeeds exactly when the inputs resolve, the tool exits with 0,
   * and the first version it prints is the resolved one; the directory added
   * to the PATH is then the bin directory named for that version.
   */
  lemma InstallSucceedsIff(versionInput: string, latestTag: Option<string>, platformInput: string,
                           archInput: string, exitCode: Option<int>, output: string)
    ensures var r := Install(versionInput, latestTag, platformInput, archInput, exitCode, output);
      var plan := Prepare(versionInput, latestTag, platformInput, archInput);
      && (r.Ok? <==> plan.Ok? && exitCode == Some(0) && FindVersion(output) == Some(plan.value.version))
      && (r.Ok? ==> r.value == Locate(plan.value.version, plan.value.platform, plan.value.arch).binDir
                    && IsTriple(plan.value.version))
  {
    var plan := Prepare(versionInput, latestTag, platformInput, archInput);
    if plan.Ok? && CheckInstalled(plan.value.version, exitCode, output, plan.value.exe).Ok? {
      CheckedVersionIsTriple(plan.value.version, exitCode, output, plan.value.exe);
    }
  }

  /**
   * With "latest" requested and a `v`-tag returned, the archive is downloaded
   * from exactly that tag's release directory.
   */
  lemma LatestTagIsDownloaded(versionInput: string, tag: string, platformInput: string, archInput: string)
    requires versionInput == "" || versionInput == "latest"
    requires |tag| > 0 && tag[0] == 'v'
    requires Prepare(versionInput, Some(tag), platformInput, archInput).Ok?
    ensures var url := Prepare(versionInput, Some(tag), platformInput, archInput).value.artifact.url;
      |ReleaseBase + tag + "/"| <= |url| && url[..|ReleaseBase + tag + "/"|] == ReleaseBase + tag + "/"
  {
    var plan := Prepare(versionInput, Some(tag), platformInput, archInput).value;
    TagRoundTrip(plan.version, tag);
    assert VersionTag(plan.version) == tag;
    var head := ReleaseBase + tag + "/";
    assert plan.artifact.url == head + plan.artifact.outFile;
  }

  /** An unsupported platform fails the run before any architecture is looked at. */
  lemma UnsupportedPlatformFails(archInput: string, exitCode: Option<int>, output: string)
    ensures Install("1.21.0", None, "solaris", archInput, exitCode, output) == Err(UnsupportedPlatform("solaris"))
  {
  }
}
