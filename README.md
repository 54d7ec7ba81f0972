# ShellUtil: the checkable logic of the Windows shell helpers

`Windows/W32Util/ShellUtil.cpp` binds the emulator to the Windows shell:
file dialogs, the recycle bin, the Documents folder, desktop shortcuts and
icon files. Most of it is a fixed sequence of COM and Win32 calls. This
project models the four pieces that compute something, with every operating
system call replaced by a parameter:

- **Shortcut names** (`ShortcutNames`, `DesktopShortcut`). `CreateDesktopShortcut`
  turns the game title into a file name by replacing each character of
  `<>:"/\|?*` with `_`. The range-for also visits the array's terminating
  NUL, so NUL is replaced as well. The argument path gets its forward slashes
  flipped to backslashes and is then wrapped in double quotes. The link goes
  to `desktop\title.lnk`, and the function always returns false. CreateLink
  receives every string as a `const wchar_t *`, so each one counts only up to
  its first NUL. An argument path holding a NUL loses its closing quote.
- **The executable's own path** (`ModuleFileName`). The buffer grows by
  `MAX_PATH` (260) until `GetModuleFileName` returns a length smaller than
  the buffer. The buffer is then cut to that length.
- **File dialogs** (`FileDialog`, `MultiSelect`). The dialog runs on a buffer
  of 327680 wide characters. After `FNERR_BUFFERTOOSMALL` it runs once more,
  on a buffer grown by twice the size the dialog asked for. A multi-select
  result is a list of NUL-terminated strings ending in an empty one. It is
  split into the single full path, or into `directory\name` for each name,
  in order.
- **Icon files** (`IcoFile`). `CreateICOFromPNGData` rejects data no longer
  than the PNG header it peeks at, and any image wider or taller than 256.
  Otherwise it writes a 6-byte ICONDIR, one 16-byte ICONDIRENTRY and the PNG
  bytes unchanged, all little-endian. The image data starts at offset 22.

Strings are `seq<char>`. The UTF-8 / UTF-16 conversions are identities.
The title loop compares the bytes of a UTF-8 string, and the bytes of a
multi-byte sequence are never ASCII, so comparing characters gives the same
result. A wide buffer is a `seq<char>`. A C string in it ends at the first
NUL, or at the end of the buffer, where `std::wstring` keeps its own
terminator (`WideStrings`).

The operating system appears as parameters:

- `desktopFolder`: what `SHGetFolderPath` reports.
- `executablePath`: the path `GetModuleFileName` reports.
  `ModuleFileName.GetModuleFileName` models its documented truncation
  behaviour.
- A `Dialog`: a function from (open or save, buffer handed in) to the
  characters written and the `CommDlgExtendedError` code.
- `fileOpens`: whether `File::OpenCFile` succeeds.
- `width`, `height` and `peekSize`: what `PNGHeaderPeek` reports, and its
  size.

## Model

| member | source | states |
|---|---|---|
| WideStrings.StrLenStopsAtNul | Windows/W32Util/ShellUtil.cpp:185-192 | wcslen: every character before the returned length is non-NUL, and the one at it is NUL unless the buffer ends there |
| WideStrings.StrLenBelowNul | Windows/W32Util/ShellUtil.cpp:185-192 | wcslen from an index stops no later than any NUL at or after it |
| WideStrings.CStringAtIsWord | Windows/W32Util/ShellUtil.cpp:183 | the string read at an index has no NUL, lies in the buffer at that index, and is followed by a NUL or the buffer's end |
| WideStrings.CStringOfWord | Windows/W32Util/ShellUtil.cpp:185-192 | a NUL-free word followed by a NUL (or the end) is exactly the C string read at its position |
| ShortcutNames.SanitizedTitle | Windows/W32Util/ShellUtil.cpp:267-275 | the sanitised title has the input's length; each banned character (NUL included) is `_`, every other character is unchanged |
| ShortcutNames.SanitizeTitle | Windows/W32Util/ShellUtil.cpp:265-275 | the nested in-place loop (inner loop left at the first match) computes exactly SanitizedTitle |
| ShortcutNames.SanitizedTitleIsClean | Windows/W32Util/ShellUtil.cpp:267-275 | no banned character is left, and a character changes exactly when it was banned |
| ShortcutNames.SanitizedTitleIdempotent | Windows/W32Util/ShellUtil.cpp:267-275 | sanitising twice equals sanitising once |
| ShortcutNames.SanitizedTitleFixedPoint | Windows/W32Util/ShellUtil.cpp:267-275 | a title is left unchanged exactly when it holds no banned character |
| ShortcutNames.FlippedSlashes | Windows/W32Util/ShellUtil.cpp:292-297 | same length; each `/` becomes `\`, every other character is unchanged |
| ShortcutNames.SanitizeArgument | Windows/W32Util/ShellUtil.cpp:292-299 | the in-place slash loop and the quoting compute exactly the quoted, flipped argument |
| ShortcutNames.QuotedArgumentShape | Windows/W32Util/ShellUtil.cpp:292-299 | the argument is two characters longer, starts and ends with `"`, holds the flipped path in between, and contains no `/` |
| ShortcutNames.FlippedSlashesIdempotent | Windows/W32Util/ShellUtil.cpp:292-297 | flipping the slashes twice equals flipping them once |
| ModuleFileName.GetModuleFileName | Windows/W32Util/ShellUtil.cpp:285-286 | the system call returns a count smaller than the buffer exactly when the path fits, and then the buffer starts with the path; otherwise it returns the buffer size |
| ModuleFileName.ModuleFilename | Windows/W32Util/ShellUtil.cpp:281-288 | the loop terminates; the result is the whole executable path; the final buffer is a multiple of MAX_PATH, larger than the path by at most MAX_PATH: (len / 260 + 1) * 260 |
| DesktopShortcut.CreateDesktopShortcut | Windows/W32Util/ShellUtil.cpp:260-312 | returns false; every string reaches CreateLink as a C string: the link path is the desktop folder (up to its NUL) + `\` + sanitised title + `.lnk`; the description is the sanitised title; the target is the executable path up to its first NUL; the argument is the quoted, flipped path up to its first NUL; an icon, the icon path up to its first NUL, is set only for a non-empty icon path |
| DesktopShortcut.TitleIsWholeCString | Windows/W32Util/ShellUtil.cpp:267-278 | the sanitised title holds no NUL, so `c_str()` hands over all of it |
| DesktopShortcut.ArgumentIsWholeCString | Windows/W32Util/ShellUtil.cpp:292-306 | the shell receives the whole quoted argument exactly when the argument path holds no NUL; otherwise the argument is cut short |
| DesktopShortcut.LinkStaysOnDesktop | Windows/W32Util/ShellUtil.cpp:267-279 | the title part of the link path holds no `\` or `/`, so the link is created directly in the desktop folder |
| MultiSelect.NamesAreValid | Windows/W32Util/ShellUtil.cpp:190-194 | the strings read from a cursor up to the first empty one are all non-empty and NUL-free |
| MultiSelect.QualifiedPaths | Windows/W32Util/ShellUtil.cpp:191 | one path per name, in order, each `directory + "\" + name` |
| MultiSelect.SplitSelection | Windows/W32Util/ShellUtil.cpp:183-194 | the cursor walk over a buffer with an end marker terminates, stays in the buffer, and yields exactly Selection(buffer) |
| MultiSelect.QualifiedStep | Windows/W32Util/ShellUtil.cpp:190-193 | one turn of the loop: the path for the string under the cursor comes first, and the cursor moves past that string and its NUL, still before the end marker |
| MultiSelect.CStringWithTerminator | Windows/W32Util/ShellUtil.cpp:183-185 | a C string read inside the std::wstring is the same whether its terminator is counted or not |
| MultiSelect.NamesWithTerminator | Windows/W32Util/ShellUtil.cpp:190-193 | the walk stops at the std::wstring's terminator exactly as it stops at the end of its characters |
| MultiSelect.SelectionWithTerminator | Windows/W32Util/ShellUtil.cpp:183-194 | the split of the std::wstring's characters equals the split of its storage including the terminator, which is what the pointer walks |
| MultiSelect.NamesStep | Windows/W32Util/ShellUtil.cpp:190-193 | from a non-empty string before the end marker, the cursor moves past that string and its NUL, still before the marker, and the remaining names follow |
| MultiSelect.NamesOfJoined | Windows/W32Util/ShellUtil.cpp:190-194 | reading back a run of NUL-terminated names ended by an empty string gives those names, whatever precedes or follows |
| MultiSelect.ListBufferHasEnd | Windows/W32Util/ShellUtil.cpp:183-194 | the buffer the dialog writes always holds the two consecutive NULs that end the list |
| MultiSelect.SelectionOfListBuffer | Windows/W32Util/ShellUtil.cpp:183-194 | for the buffer the dialog writes (directory, names, empty string, anything after), the split is `[directory]` when there are no names (the single-file case), otherwise `directory\name` for each name in order |
| MultiSelect.JoinedOfNames | Windows/W32Util/ShellUtil.cpp:190-194 | from any string start before the end marker, the buffer holds the names read there, each NUL-terminated, then the empty string |
| MultiSelect.ListBufferIsPrefix | Windows/W32Util/ShellUtil.cpp:183-194 | every buffer with an end marker starts with its own directory and names laid out as the dialog writes them |
| MultiSelect.ListBufferOfSelection | Windows/W32Util/ShellUtil.cpp:183-194 | on every buffer with an end marker, the split is `[first string]` if the next string is empty, otherwise one `first\name` per non-empty string after it, up to the first empty one |
| MultiSelect.TwoFiles | Windows/W32Util/ShellUtil.cpp:189-194 | a directory and two names give exactly the two paths `directory\first` and `directory\second` |
| FileDialog.AfterCall | Windows/W32Util/ShellUtil.cpp:133 | the dialog's characters overlay the start of the buffer; the size is unchanged and the rest is kept |
| FileDialog.ResetFileBuffer | Windows/W32Util/ShellUtil.cpp:115-120 | the buffer keeps its size and its last character; an empty caller's name leaves it untouched |
| FileDialog.PrefilledName | Windows/W32Util/ShellUtil.cpp:118-119 | the dialog sees the caller's name cut at its first NUL and to size - 1 characters |
| FileDialog.RunDialog | Windows/W32Util/ShellUtil.cpp:133-140 | the dialog runs once or twice; the second run happens exactly after FNERR_BUFFERTOOSMALL, on a buffer of 327680 + 2 * (first character as unsigned short); the outcome and buffer are those of the last run |
| FileDialog.BrowseForFileName | Windows/W32Util/ShellUtil.cpp:107-147 | returns the last run's success; on success the name becomes the C string in the buffer, otherwise it is unchanged |
| FileDialog.BrowseForFileNameMultiSelect | Windows/W32Util/ShellUtil.cpp:149-197 | after a successful run the result is the split buffer (walked with its terminator); after a failed run it is the empty list |
| IcoFile.Le32RoundTrip | Windows/W32Util/ShellUtil.cpp:343-344 | a DWORD written little-endian reads back as itself |
| IcoFile.HeaderBytes | Windows/W32Util/ShellUtil.cpp:330-335 | ICONDIR takes 6 bytes |
| IcoFile.EntryBytes | Windows/W32Util/ShellUtil.cpp:336-346 | ICONDIRENTRY takes 16 bytes |
| IcoFile.HeaderRoundTrip | Windows/W32Util/ShellUtil.cpp:330-335 | the written ICONDIR reads back field for field |
| IcoFile.EntryRoundTrip | Windows/W32Util/ShellUtil.cpp:336-346 | the written ICONDIRENTRY reads back field for field |
| IcoFile.CreateIcoFromPngData | Windows/W32Util/ShellUtil.cpp:318-363 | fails (nothing written) exactly when the data is no longer than the peeked header, a dimension exceeds 256, or the file does not open; otherwise 22 + n bytes: `00 00 01 00 01 00`, width and height mod 256, colour count 0, reserved 0, planes 1, bit count 32, size n as a DWORD, offset 22, then the n image bytes |
| IcoFile.IcoLayout | Windows/W32Util/ShellUtil.cpp:330-361 | the header, each entry field and the image land at their fixed offsets in the written bytes |
| IcoFile.StoredDimension | Windows/W32Util/ShellUtil.cpp:347-348 | a width or height of 1 to 256 cut to its low byte reads back as itself (256 as 0) |
| IcoFile.IcoRoundTrip | Windows/W32Util/ShellUtil.cpp:335-361 | an icon reader gets the entry and the exact PNG bytes back, and reads the stored dimensions as the PNG's own (256 stored as 0) |

## Left out

- `MoveToTrash`, `BrowseForFolder2`, `UserDocumentsPath` and `CreateLink` are fixed sequences of COM and shell calls. They have nothing to state beyond what the system returns.
- The real dialogs, `CommDlgExtendedError`, `GetModuleFileName` and `SHGetFolderPath` are parameters, as listed above. The filter, default extension, initial folder, owner window and flags go only to the system, so they are not modelled.
- A `Dialog` is a function of the buffer it is handed. A user who picks differently on the second showing of the same buffer is not modelled.
- `BrowseForFileName` takes a title argument but never passes it to the dialog. The model has no title parameter.
- ModuleFileName.ModuleFilename: `GetModuleFileName` failing outright (returning 0) is not modelled; the model always gets the executable's path.
- DesktopShortcut.CreateDesktopShortcut: the desktop folder is taken as given. The case where `SHGetFolderPath` fails and leaves its buffer unset is not modelled.
- The `wcscat` calls into the fixed 4096-character desktop buffer do no length check. The model builds the link path as an unbounded sequence, so it does not capture that overflow.
- File output (`File::OpenCFile`, `fwrite`, `fclose`): the icon file is the returned byte sequence, and the open failure is the `fileOpens` flag.
- `PNGHeaderPeek` (in `Common/Data/Format/PNGLoad.h`) is not part of this model. Its size is the `peekSize` parameter, and its `Width()` and `Height()` are integer inputs. A negative value passes the `> 256` test, exactly as the comparison in the code does, and is stored by its low byte.
- MultiSelect.SplitSelection requires two consecutive NULs in the storage it walks: the std::wstring's characters and its terminator. So the list may end on the buffer's last character, with the terminator as the closing empty string. Without that, `wcslen` would read past the storage, which the code does not guard against. `FileDialog.WritesFileList` states this of every successful dialog run. The source gets it, in the single-file case, from the NUL fill of the buffer (line 152) together with the dialog's own terminator; the model takes it as a property of the dialog.
- UTF-8 / UTF-16 conversion is the identity, as said above. Logging is not modelled.
