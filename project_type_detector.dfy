/**
 * Utils/ProjectTypeDetector.cs: the project type read from the first .csproj
 * file of the project directory. Finding and reading that file is left to the
 * caller, which passes its text, or None when there is no such file.
 */
module ProjectTypeDetector {
  import opened Text
  import opened Optional
  import opened Models

  const WebSdk := "Microsoft.NET.Sdk.Web"
  const RazorSdk := "Microsoft.NET.Sdk.Razor"
  const ExeOutput := "<OutputType>Exe</OutputType>"
  const LibraryOutput := "<OutputType>Library</OutputType>"

  /** The markers in the order they are tested, each with the type it selects. */
  const Markers: seq<(string, ProjectType)> :=
    [(WebSdk, WebApi), (RazorSdk, RazorApp), (ExeOutput, ConsoleApp), (LibraryOutput, ClassLibrary)]

  /**
   * The type of the first marker (in the order of Markers) that the manifest
   * contains; Unknown when it contains none of them or there is no manifest.
   */
  function DetectType(manifest: Option<string>): (t: ProjectType)
    ensures manifest.None? ==> t == Unknown
    ensures manifest.Some? ==>
      (t == Unknown <==> forall k | 0 <= k < |Markers| :: !Contains(manifest.value, Markers[k].0))
    ensures manifest.Some? && t != Unknown ==>
      exists k | 0 <= k < |Markers| ::
        Markers[k].1 == t && Contains(manifest.value, Markers[k].0) &&
        forall j | 0 <= j < k :: !Contains(manifest.value, Markers[j].0)
  {
    match manifest
    case None => Unknown
    case Some(content) =>
      if Contains(content, WebSdk) then
        assert Markers[0] == (WebSdk, WebApi);
        WebApi
      else if Contains(content, RazorSdk) then
        assert Markers[1] == (RazorSdk, RazorApp);
        RazorApp
      else if Contains(content, ExeOutput) then
        assert Markers[2] == (ExeOutput, ConsoleApp);
        ConsoleApp
      else if Contains(content, LibraryOutput) then
        assert Markers[3] == (LibraryOutput, ClassLibrary);
        ClassLibrary
      else Unknown
  }

  /** The Web SDK marker wins wherever it appears, whatever else the manifest says. */
  lemma WebMarkerDominates(before: string, after: string)
    ensures DetectType(Some(before + WebSdk + after)) == WebApi
  {
    ContainsInside(before, WebSdk, after);
  }

  /** A manifest without either SDK marker is a console application as soon as it declares an Exe output. */
  lemma ExeOutputWithoutSdkMarkers(before: string, after: string)
    requires !Contains(before + ExeOutput + after, WebSdk)
    requires !Contains(before + ExeOutput + after, RazorSdk)
    ensures DetectType(Some(before + ExeOutput + after)) == ConsoleApp
  {
    ContainsInside(before, ExeOutput, after);
  }
}
