/**
 * CreateDesktopShortcut: the shortcut it asks the shell to create. The shell
 * call itself (CreateLink) is not modelled; its arguments are the result.
 */
module DesktopShortcut {
  import opened Wrappers
  import opened ShortcutNames
  import opened ModuleFileName
  import opened WideStrings

  /** The arguments handed to CreateLink. */
  datatype LinkRequest = LinkRequest(
    target: seq<char>,
    arguments: seq<char>,
    linkPath: seq<char>,
    description: seq<char>,
    icon: Option<seq<char>>)

  /**
   * `desktopFolder` is the buffer SHGetFolderPath fills for the desktop and
   * `executablePath` what GetModuleFileName reports for the running program.
   * Every string reaches CreateLink as a `const wchar_t *`, so what the shell
   * sees of each is the C string up to its first NUL. The link goes to
   * desktop\title.lnk with the sanitised title, points at the executable,
   * passes the quoted argument, and the call reports failure whatever happens.
   */
  method CreateDesktopShortcut(argumentPath: seq<char>, gameTitleStr: seq<char>, icoFile: seq<char>,
                               desktopFolder: seq<char>, executablePath: seq<char>)
    returns (ok: bool, link: LinkRequest)
    ensures !ok
    ensures link.linkPath == CStringAt(desktopFolder, 0) + "\\" + SanitizedTitle(gameTitleStr) + ".lnk"
    ensures link.description == SanitizedTitle(gameTitleStr)
    ensures link.target == CStringAt(executablePath, 0)
    ensures link.arguments == CStringAt(QuotedArgument(argumentPath), 0)
    ensures link.icon == if icoFile == [] then None else Some(CStringAt(icoFile, 0))
  {
    var gameTitle := SanitizeTitle(gameTitleStr);
    var title := CStringAt(gameTitle, 0);
    TitleIsWholeCString(gameTitleStr);
    var pathbuf := CStringAt(desktopFolder, 0) + "\\" + title + ".lnk";
    var moduleFilename, _ := ModuleFilename(executablePath);
    var sanitizedArgument := SanitizeArgument(argumentPath);
    var icon := if icoFile == [] then None else Some(CStringAt(icoFile, 0));
    link := LinkRequest(CStringAt(moduleFilename, 0), CStringAt(sanitizedArgument, 0), pathbuf, title, icon);
    ok := false;
  }

  /** The sanitised title has no NUL left, so reading it as a C string loses nothing. */
  lemma TitleIsWholeCString(gameTitleStr: seq<char>)
    ensures CStringAt(SanitizedTitle(gameTitleStr), 0) == SanitizedTitle(gameTitleStr)
  {
    var title := SanitizedTitle(gameTitleStr);
    forall i | 0 <= i < |title|
      ensures title[i] != '\0'
    {
      SanitizedTitleIsClean(gameTitleStr, i);
      assert BannedChars[9] == '\0';
    }
    CStringOfWord(title, 0, title);
  }

  /**
   * The shell receives the whole quoted argument exactly when the argument
   * path holds no NUL; otherwise it is cut at the first one and loses its
   * closing quote.
   */
  lemma ArgumentIsWholeCString(argumentPath: seq<char>)
    ensures CStringAt(QuotedArgument(argumentPath), 0) == QuotedArgument(argumentPath) <==> NoNul(argumentPath)
  {
    var q := QuotedArgument(argumentPath);
    QuotedArgumentShape(argumentPath);
    if NoNul(argumentPath) {
      forall i | 0 <= i < |q|
        ensures q[i] != '\0'
      {
        if 0 < i < |q| - 1 {
          assert q[i] == FlippedSlashes(argumentPath)[i - 1];
        }
      }
      CStringOfWord(q, 0, q);
    } else {
      var i :| 0 <= i < |argumentPath| && argumentPath[i] == '\0';
      assert q[i + 1] == FlippedSlashes(argumentPath)[i] == '\0';
      StrLenBelowNul(q, 0, i + 1);
      CStringAtIsWord(q, 0);
    }
  }

  /**
   * The title part of the link path holds no path separator, so the shortcut
   * lands directly in the desktop folder whatever the title says.
   */
  lemma LinkStaysOnDesktop(gameTitleStr: seq<char>)
    ensures '\\' !in SanitizedTitle(gameTitleStr) && '/' !in SanitizedTitle(gameTitleStr)
  {
    assert '\\' in BannedChars && '/' in BannedChars;
  }
}
