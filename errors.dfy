/** The errors the action throws, and the failure message each one reports. */
module Errors {
  import opened Results

  datatype Error =
    | UnsupportedPlatform(platform: string)
    | UnsupportedArch(platform: string, arch: string)
    | UnexpectedExtension(ext: string)
    | LatestQueryFailed
    | RunFailed(exe: string)
    | NoVersionInOutput
    | VersionMismatch(version: string, found: string)

  /** The platforms main.js lists, joined the way a JavaScript array renders in a template string. */
  const PlatformListText: string := "linux,macOS,windows"

  /**
   * The text handed to the failure report. `NoVersionInOutput` is the engine's
   * own TypeError (reading index 0 of a null match), whose wording is not part
   * of the program, so it has no message here.
   */
  function Message(e: Error): (m: Option<string>)
    ensures m.None? <==> e.NoVersionInOutput?
  {
    match e
    case UnsupportedPlatform(p) =>
      Some("Platform " + p + " not in list of supported platforms: " + PlatformListText)
    case UnsupportedArch(p, a) => Some("Platform " + p + " does not support arch " + a)
    case UnexpectedExtension(x) => Some("Unexpected file extension " + x)
    case LatestQueryFailed => Some("Unable to query latest version")
    case RunFailed(exe) => Some("Unable to run ispc at " + exe)
    case NoVersionInOutput => None
    case VersionMismatch(v, found) => Some("Unable to match ispc version " + v + " with " + found)
  }

  /** Every message names the offending value right after its fixed opening words. */
  lemma MessageNamesInput(e: Error)
    ensures e.UnsupportedPlatform? ==> (
      var m := Message(e).value;
      m[..9] == "Platform " && m[9..9 + |e.platform|] == e.platform)
    ensures e.UnsupportedArch? ==> (
      var m := Message(e).value;
      m[..9] == "Platform " && m[9..9 + |e.platform|] == e.platform && m[|m| - |e.arch|..] == e.arch)
    ensures e.UnexpectedExtension? ==> (
      var m := Message(e).value;
      m[|m| - |e.ext|..] == e.ext)
    ensures e.VersionMismatch? ==> (
      var m := Message(e).value;
      m[29..29 + |e.version|] == e.version && m[|m| - |e.found|..] == e.found)
    ensures e.RunFailed? ==> (
      var m := Message(e).value;
      m[|m| - |e.exe|..] == e.exe)
  {
  }
}
