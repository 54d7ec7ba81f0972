/**
 * BrowseForFileName and BrowseForFileNameMultiSelect: the common dialog is
 * run on a large buffer and, when it reports that this buffer is too small,
 * run once more on a grown one.
 */
module FileDialog {
  import opened WideStrings
  import opened MultiSelect

  /** The extended error code (cderr.h) for a result that did not fit. */
  const FNERR_BUFFERTOOSMALL: nat := 0x3003

  /** The size the filename buffer starts with, in wide characters. */
  const InitialBufferSize: nat := 32768 * 10

  /**
   * One run of GetOpenFileName or GetSaveFileName: the characters it wrote
   * at the start of the buffer and, on failure, the code
   * CommDlgExtendedError reports afterwards.
   */
  datatype Reply = Succeeded(written: seq<char>) | Failed(error: nat, written: seq<char>)

  /** The dialog as the program sees it: open (true) or save, and the buffer it is handed. */
  type Dialog = (bool, seq<char>) -> Reply

  /** The buffer after a call: the dialog's characters over the old ones, within the buffer's size. */
  function AfterCall(buffer: seq<char>, written: seq<char>): (r: seq<char>)
    ensures |r| == |buffer|
    ensures |written| <= |buffer| ==> r[..|written|] == written && r[|written|..] == buffer[|written|..]
  {
    if |written| >= |buffer| then written[..|buffer|] else written + buffer[|written|..]
  }

  /**
   * resetFileBuffer: a non-empty caller's name is copied in with wcsncpy,
   * at most size - 1 characters and NUL-padded up to there; the last
   * character of the buffer is left as it was.
   */
  function ResetFileBuffer(buffer: seq<char>, fileName: seq<char>): (r: seq<char>)
    requires |buffer| > 0
    ensures |r| == |buffer|
    ensures fileName == [] ==> r == buffer
    ensures r[|r| - 1] == buffer[|buffer| - 1]
  {
    if fileName == [] then buffer
    else
      var source := CStringAt(fileName, 0);
      var n := |buffer| - 1;
      var copied := if |source| < n then source + Zeros(n - |source|) else source[..n];
      copied + buffer[n..]
  }

  /** The dialog is handed the caller's name, cut at its first NUL and to size - 1 characters. */
  lemma PrefilledName(buffer: seq<char>, fileName: seq<char>)
    requires |buffer| > 0 && buffer[|buffer| - 1] == '\0' && fileName != []
    ensures var name := CStringAt(fileName, 0);
      CStringAt(ResetFileBuffer(buffer, fileName), 0) == if |name| < |buffer| - 1 then name else name[..|buffer| - 1]
  {
    var name := CStringAt(fileName, 0);
    CStringAtIsWord(fileName, 0);
    var r := ResetFileBuffer(buffer, fileName);
    var n := |buffer| - 1;
    if |name| < n {
      assert r[..|name|] == name;
      assert r[|name|] == '\0';
      CStringOfWord(r, 0, name);
    } else {
      assert r[..n] == name[..n];
      CStringOfWord(r, 0, name[..n]);
    }
  }

  /** The size the dialog asks for: the first character, read as an unsigned short. */
  function SizeHint(buffer: seq<char>): nat
    requires |buffer| > 0
  {
    (buffer[0] as int) % 0x1_0000
  }

  /** The retry is taken exactly when the dialog failed with FNERR_BUFFERTOOSMALL. */
  predicate TooSmall(reply: Reply)
  {
    reply.Failed? && reply.error == FNERR_BUFFERTOOSMALL
  }

  /** The buffers the dialog was handed, whether the last run succeeded, and the buffer it left. */
  datatype Session = Session(calls: seq<seq<char>>, success: bool, buffer: seq<char>)

  /**
   * The call and the single retry. The dialog runs at most twice; the second
   * run happens only after FNERR_BUFFERTOOSMALL, on the first buffer grown by
   * twice the size it asked for; the outcome is that of the last run.
   */
  function RunDialog(dialog: Dialog, load: bool, fileName: seq<char>): (s: Session)
    ensures 1 <= |s.calls| <= 2
    ensures s.calls[0] == ResetFileBuffer(Zeros(InitialBufferSize), fileName)
    ensures |s.calls| == 2 <==> TooSmall(dialog(load, s.calls[0]))
    ensures |s.calls| == 2 ==>
      |s.calls[1]| == InitialBufferSize + 2 * SizeHint(AfterCall(s.calls[0], dialog(load, s.calls[0]).written))
    ensures var last := s.calls[|s.calls| - 1];
      s.success == dialog(load, last).Succeeded? && s.buffer == AfterCall(last, dialog(load, last).written)
  {
    var first := ResetFileBuffer(Zeros(InitialBufferSize), fileName);
    var reply := dialog(load, first);
    var after := AfterCall(first, reply.written);
    if TooSmall(reply) then
      var second := ResetFileBuffer(after + Zeros(2 * SizeHint(after)), fileName);
      var retry := dialog(load, second);
      Session([first, second], retry.Succeeded?, AfterCall(second, retry.written))
    else
      Session([first], reply.Succeeded?, after)
  }

  /** On success the caller's name becomes the chosen path; otherwise it is left alone. */
  method BrowseForFileName(load: bool, dialog: Dialog, fileName: seq<char>) returns (ok: bool, newFileName: seq<char>)
    ensures var s := RunDialog(dialog, load, fileName);
      ok == s.success &&
      newFileName == if ok then CStringAt(s.buffer, 0) else fileName
  {
    var s := RunDialog(dialog, load, fileName);
    ok := s.success;
    newFileName := fileName;
    if ok {
      newFileName := CStringAt(s.buffer, 0);
    }
  }

  /**
   * After a successful run an empty string ends the list inside the buffer,
   * or the list's last NUL is the buffer's last character and the empty
   * string is the std::wstring's own terminator.
   */
  ghost predicate WritesFileList(dialog: Dialog)
  {
    forall load, buffer :: dialog(load, buffer).Succeeded? ==>
      HasListEnd(AfterCall(buffer, dialog(load, buffer).written) + ['\0'])
  }

  /** The split result of a successful run, and no path at all after a failure. */
  method BrowseForFileNameMultiSelect(load: bool, dialog: Dialog) returns (files: seq<seq<char>>)
    requires WritesFileList(dialog)
    ensures var s := RunDialog(dialog, load, []);
      files == if s.success then Selection(s.buffer) else []
  {
    var s := RunDialog(dialog, load, []);
    files := [];
    if s.success {
      files := SplitSelection(s.buffer + ['\0']);
      SelectionWithTerminator(s.buffer);
    }
  }
}
