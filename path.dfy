/** The two `System.IO.Path` operations the core calls, as .NET defines them on
    Windows, where both '\' and '/' separate directories. */
module Path {
  import opened Base

  predicate IsDirectorySeparator(c: CodeUnit) {
    c == Backslash || c == Slash
  }

  /** A character at which `GetExtension`'s backward scan stops. */
  predicate IsExtensionMarker(c: CodeUnit) {
    c == Dot || IsDirectorySeparator(c)
  }

  predicate MarkerFree(s: Text) {
    forall j :: 0 <= j < |s| ==> !IsExtensionMarker(s[j])
  }

  /** The backward scan of `Path.GetExtension` over `path[..i]`: the first marker met
      decides; a '.' gives the suffix from it unless it is the last character. */
  function ExtensionScan(path: Text, i: nat): (ext: Text)
    requires i <= |path|
    requires MarkerFree(path[i..])
    ensures ext == [] || (2 <= |ext| <= |path| && ext[0] == Dot && ext == path[|path| - |ext|..] && MarkerFree(ext[1..]))
    ensures ext == [] ==> forall k :: 0 <= k < |path| - 1 && path[k] == Dot ==> !MarkerFree(path[k + 1..])
    decreases i
  {
    if i == 0 then []
    else
      var ch := path[i - 1];
      if ch == Dot then
        if i - 1 != |path| - 1 then path[i - 1..] else []
      else if IsDirectorySeparator(ch) then []
      else
        assert path[i - 1..] == [ch] + path[i..];
        ExtensionScan(path, i - 1)
  }

  /** `Path.GetExtension`: the suffix that starts at the last '.' of the final path
      component, or empty when there is none or that '.' ends the path. */
  function GetExtension(path: Text): (ext: Text)
    ensures ext == [] || (2 <= |ext| <= |path| && ext[0] == Dot && ext == path[|path| - |ext|..] && MarkerFree(ext[1..]))
    ensures ext == [] ==> forall k :: 0 <= k < |path| - 1 && path[k] == Dot ==> !MarkerFree(path[k + 1..])
  {
    ExtensionScan(path, |path|)
  }

  /** The text `Path.TryJoin` writes: either side alone when the other is empty,
      otherwise both with a '\' between them unless one already has a separator at
      the boundary. */
  function Join(path1: Text, path2: Text): (joined: Text)
    ensures |path1| + |path2| <= |joined| <= |path1| + 1 + |path2|
    ensures joined[..|path1|] == path1 && joined[|joined| - |path2|..] == path2
    ensures |joined| == |path1| + 1 + |path2| <==>
              path1 != [] && path2 != [] && !IsDirectorySeparator(path1[|path1| - 1]) && !IsDirectorySeparator(path2[0])
    ensures |joined| == |path1| + 1 + |path2| ==> joined[|path1|] == Backslash
  {
    if path1 == [] then path2
    else if path2 == [] then path1
    else if IsDirectorySeparator(path1[|path1| - 1]) || IsDirectorySeparator(path2[0]) then path1 + path2
    else path1 + [Backslash] + path2
  }

  /** `Path.TryJoin` into a destination of `capacity` characters: fails, writing
      nothing, when the joined text does not fit. */
  function TryJoin(path1: Text, path2: Text, capacity: nat): (r: Option<Text>)
    ensures r.Some? <==> |Join(path1, path2)| <= capacity
    ensures r.Some? ==> r.value == Join(path1, path2)
  {
    var joined := Join(path1, path2);
    if |joined| <= capacity then Some(joined) else None
  }

  /** The destination the traversal allocates, `directory.Length + 1 + fileName.Length`
      characters, always suffices: its `CodeBugException` branch is unreachable. */
  lemma JoinFitsTraversalBuffer(directory: Text, name: Text)
    ensures TryJoin(directory, name, |directory| + 1 + |name|) == Some(Join(directory, name))
    ensures name != [] ==> |Join(directory, name)| > |directory|
  {
  }
}
