/**
 * The loop in CreateDesktopShortcut that asks for the executable's own path,
 * growing the buffer by MAX_PATH characters until the path fits.
 */
module ModuleFileName {
  import opened WideStrings

  const MAX_PATH: nat := 260

  /**
   * GetModuleFileName for the running executable at `path`, as documented:
   * when the path fits, it is copied with its NUL and its length comes back;
   * otherwise the buffer receives as much of the path as fits before a NUL,
   * and the buffer's own size comes back.
   */
  function GetModuleFileName(path: seq<char>, buffer: seq<char>): (r: (seq<char>, nat))
    ensures |r.0| == |buffer|
    ensures r.1 <= |buffer|
    ensures r.1 < |buffer| <==> |path| < |buffer|
    ensures |path| < |buffer| ==> r.1 == |path| && r.0[..r.1] == path
  {
    if |path| < |buffer| then (path + ['\0'] + buffer[|path| + 1..], |path|)
    else if buffer == [] then (buffer, 0)
    else (path[..|buffer| - 1] + ['\0'], |buffer|)
  }

  /**
   * The do-while loop and the final resize: the result is the whole path, and the
   * loop stops at the first multiple of MAX_PATH that exceeds the path's length.
   */
  method ModuleFilename(path: seq<char>) returns (moduleFilename: seq<char>, capacity: nat)
    ensures moduleFilename == path
    ensures capacity % MAX_PATH == 0
    ensures |path| < capacity <= |path| + MAX_PATH
    ensures capacity == (|path| / MAX_PATH + 1) * MAX_PATH
  {
    moduleFilename := [];
    var sz: nat;
    ghost var rounds: nat := 0;
    while true
      invariant |moduleFilename| == rounds * MAX_PATH
      invariant |moduleFilename| <= |path|
      decreases |path| - |moduleFilename|
    {
      moduleFilename := moduleFilename + Zeros(MAX_PATH);
      rounds := rounds + 1;
      var call := GetModuleFileName(path, moduleFilename);
      moduleFilename, sz := call.0, call.1;
      if sz < |moduleFilename| {
        break;
      }
    }
    capacity := |moduleFilename|;
    assert (rounds - 1) * MAX_PATH <= |path| < rounds * MAX_PATH;
    assert |path| / MAX_PATH == rounds - 1;
    moduleFilename := moduleFilename[..sz];
  }
}
