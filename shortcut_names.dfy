/**
 * The two string clean-ups CreateDesktopShortcut performs before it builds
 * the shortcut: the game title becomes a file name and the argument path
 * becomes one quoted command-line argument.
 */
module ShortcutNames {

  /**
   * The characters the title loop compares against: the nine of the
   * `bannedChars` literal and the NUL that terminates the array, which the
   * range-for visits as well.
   */
  const BannedChars: seq<char> := ['<', '>', ':', '\"', '/', '\\', '|', '?', '*', '\0']

  /** What a single title character becomes. */
  function SanitizedChar(c: char): char
  {
    if c in BannedChars then '_' else c
  }

  /** The title with every banned character replaced by an underscore. */
  function SanitizedTitle(title: seq<char>): (r: seq<char>)
    ensures |r| == |title|
    ensures forall i :: 0 <= i < |title| ==> r[i] == (if title[i] in BannedChars then '_' else title[i])
  {
    if title == [] then [] else [SanitizedChar(title[0])] + SanitizedTitle(title[1..])
  }

  /** The in-place loop over the title; the inner loop stops at the first banned character that matches. */
  method SanitizeTitle(gameTitleStr: seq<char>) returns (gameTitle: seq<char>)
    ensures gameTitle == SanitizedTitle(gameTitleStr)
  {
    gameTitle := gameTitleStr;
    var i := 0;
    while i < |gameTitle|
      invariant 0 <= i <= |gameTitle| == |gameTitleStr|
      invariant forall k :: 0 <= k < i ==> gameTitle[k] == SanitizedChar(gameTitleStr[k])
      invariant forall k :: i <= k < |gameTitle| ==> gameTitle[k] == gameTitleStr[k]
    {
      ghost var before := gameTitle;
      var j := 0;
      while j < |BannedChars|
        invariant 0 <= j <= |BannedChars|
        invariant gameTitle == before
        invariant forall m :: 0 <= m < j ==> BannedChars[m] != gameTitle[i]
      {
        if gameTitle[i] == BannedChars[j] {
          gameTitle := gameTitle[i := '_'];
          break;
        }
        j := j + 1;
      }
      i := i + 1;
    }
  }

  /** The replacement character is not itself banned. */
  lemma UnderscoreIsAllowed()
    ensures '_' !in BannedChars
  {
    assert |BannedChars| == 10;
    forall k | 0 <= k < 10
      ensures BannedChars[k] != '_'
    {
    }
  }

  /** No banned character survives, and nothing but banned characters is changed. */
  lemma SanitizedTitleIsClean(title: seq<char>, i: nat)
    requires i < |title|
    ensures SanitizedTitle(title)[i] !in BannedChars
    ensures SanitizedTitle(title)[i] != title[i] <==> title[i] in BannedChars
  {
    var r := SanitizedTitle(title);
    if title[i] in BannedChars {
      assert r[i] == '_';
      UnderscoreIsAllowed();
    } else {
      assert r[i] == title[i];
    }
  }

  /** Sanitising an already sanitised title changes nothing. */
  lemma {:induction false} SanitizedTitleIdempotent(title: seq<char>)
    ensures SanitizedTitle(SanitizedTitle(title)) == SanitizedTitle(title)
  {
    var once := SanitizedTitle(title);
    var twice := SanitizedTitle(once);
    forall i | 0 <= i < |title|
      ensures twice[i] == once[i]
    {
      SanitizedTitleIsClean(title, i);
    }
  }

  /** A title is left as it is exactly when it holds no banned character. */
  lemma SanitizedTitleFixedPoint(title: seq<char>)
    ensures SanitizedTitle(title) == title <==> forall i :: 0 <= i < |title| ==> title[i] !in BannedChars
  {
    if SanitizedTitle(title) == title {
      forall i | 0 <= i < |title|
        ensures title[i] !in BannedChars
      {
        SanitizedTitleIsClean(title, i);
      }
    }
  }

  /** The argument path with every forward slash turned into a backslash. */
  function FlippedSlashes(path: seq<char>): (r: seq<char>)
    ensures |r| == |path|
    ensures forall i :: 0 <= i < |path| ==> r[i] == (if path[i] == '/' then '\\' else path[i])
  {
    if path == [] then [] else [if path[0] == '/' then '\\' else path[0]] + FlippedSlashes(path[1..])
  }

  /** The argument as it is passed to the shortcut: slashes flipped, between double quotes. */
  function QuotedArgument(path: seq<char>): seq<char>
  {
    "\"" + FlippedSlashes(path) + "\""
  }

  /** The in-place slash loop followed by the quoting. */
  method SanitizeArgument(argumentPath: seq<char>) returns (sanitizedArgument: seq<char>)
    ensures sanitizedArgument == QuotedArgument(argumentPath)
  {
    sanitizedArgument := argumentPath;
    var i := 0;
    while i < |sanitizedArgument|
      invariant 0 <= i <= |sanitizedArgument| == |argumentPath|
      invariant sanitizedArgument[..i] == FlippedSlashes(argumentPath)[..i]
      invariant sanitizedArgument[i..] == argumentPath[i..]
    {
      if sanitizedArgument[i] == '/' {
        sanitizedArgument := sanitizedArgument[i := '\\'];
      }
      assert sanitizedArgument[..i + 1] == sanitizedArgument[..i] + [sanitizedArgument[i]];
      assert FlippedSlashes(argumentPath)[..i + 1] == FlippedSlashes(argumentPath)[..i] + [FlippedSlashes(argumentPath)[i]];
      i := i + 1;
    }
    assert sanitizedArgument == sanitizedArgument[..i];
    assert FlippedSlashes(argumentPath) == FlippedSlashes(argumentPath)[..i];
    sanitizedArgument := "\"" + sanitizedArgument + "\"";
  }

  /** The shape of the quoted argument: two characters longer, quoted, slashes flipped inside, no slash anywhere. */
  lemma QuotedArgumentShape(path: seq<char>)
    ensures var r := QuotedArgument(path);
      |r| == |path| + 2 && r[0] == '\"' && r[|r| - 1] == '\"' &&
      r[1..|r| - 1] == FlippedSlashes(path) &&
      (forall i :: 0 <= i < |path| ==> r[i + 1] == (if path[i] == '/' then '\\' else path[i])) &&
      '/' !in r
  {
    var r := QuotedArgument(path);
    assert forall i :: 0 <= i < |path| ==> r[i + 1] == FlippedSlashes(path)[i];
  }

  /** Flipping the slashes of an already flipped path changes nothing. */
  lemma {:induction false} FlippedSlashesIdempotent(path: seq<char>)
    ensures FlippedSlashes(FlippedSlashes(path)) == FlippedSlashes(path)
  {
    var once := FlippedSlashes(path);
    assert forall i :: 0 <= i < |path| ==> FlippedSlashes(once)[i] == once[i];
  }
}
