/**
 * The result buffer of a multi-select file dialog: the directory, then each
 * chosen name, every string NUL-terminated, and an empty string at the end.
 * When a single file is chosen the buffer holds just its full path.
 */
module MultiSelect {
  import opened WideStrings

  /** Two NULs in a row somewhere in the buffer: an empty string ends the list there. */
  predicate HasListEnd(buffer: seq<char>)
  {
    exists k :: 0 <= k < |buffer| - 1 && buffer[k] == '\0' && buffer[k + 1] == '\0'
  }

  /** Non-empty strings without NUL: what a list entry can be. */
  predicate ValidNames(names: seq<seq<char>>)
  {
    forall i :: 0 <= i < |names| ==> names[i] != [] && NoNul(names[i])
  }

  /** The strings from index `p` on, up to the first empty one. */
  function Names(buffer: seq<char>, p: nat): seq<seq<char>>
    decreases |buffer| - p
  {
    if p >= |buffer| || buffer[p] == '\0' then []
    else [CStringAt(buffer, p)] + Names(buffer, p + StrLen(buffer, p) + 1)
  }

  /** Every string the walk reads is a proper list entry. */
  lemma {:induction false} NamesAreValid(buffer: seq<char>, p: nat)
    ensures ValidNames(Names(buffer, p))
    decreases |buffer| - p
  {
    if p < |buffer| && buffer[p] != '\0' {
      CStringAtIsWord(buffer, p);
      NamesAreValid(buffer, p + StrLen(buffer, p) + 1);
    }
  }

  /** Each name joined to the directory with a backslash, in order. */
  function Qualified(directory: seq<char>, names: seq<seq<char>>): seq<seq<char>>
  {
    if names == [] then [] else [directory + "\\" + names[0]] + Qualified(directory, names[1..])
  }

  /** One path per name, in order, each the directory, a backslash and the name. */
  lemma {:induction false} QualifiedPaths(directory: seq<char>, names: seq<seq<char>>)
    ensures |Qualified(directory, names)| == |names|
    ensures forall i :: 0 <= i < |names| ==> Qualified(directory, names)[i] == directory + "\\" + names[i]
  {
    if names != [] {
      QualifiedPaths(directory, names[1..]);
    }
  }

  /** What the splitter makes of a buffer: the single path, or one full path per name. */
  function Selection(buffer: seq<char>): seq<seq<char>>
  {
    var directory := CStringAt(buffer, 0);
    var next := |directory| + 1;
    if next < |buffer| && buffer[next] != '\0' then Qualified(directory, Names(buffer, next))
    else [directory]
  }

  /** One step of the walk from a string start at most `k + 1`, where `k` starts the end marker: the next start is still at most `k + 1`. */
  lemma NamesStep(buffer: seq<char>, p: nat, k: nat)
    requires k + 1 < |buffer| && buffer[k] == '\0' && buffer[k + 1] == '\0'
    requires p <= k + 1 && buffer[p] != '\0'
    ensures p + StrLen(buffer, p) <= k
    ensures Names(buffer, p) == [CStringAt(buffer, p)] + Names(buffer, p + StrLen(buffer, p) + 1)
  {
    StrLenBelowNul(buffer, p, k);
  }

  /** One turn of the walk's loop: the path for the string at `temp` comes first, then those after it. */
  lemma QualifiedStep(buffer: seq<char>, directory: seq<char>, temp: nat, k: nat)
    requires k + 1 < |buffer| && buffer[k] == '\0' && buffer[k + 1] == '\0'
    requires temp <= k + 1 && buffer[temp] != '\0'
    ensures temp + |CStringAt(buffer, temp)| <= k
    ensures Qualified(directory, Names(buffer, temp)) ==
            [directory + "\\" + CStringAt(buffer, temp)] +
            Qualified(directory, Names(buffer, temp + |CStringAt(buffer, temp)| + 1))
  {
    NamesStep(buffer, temp, k);
    var name := CStringAt(buffer, temp);
    var rest := Names(buffer, temp + StrLen(buffer, temp) + 1);
    assert ([name] + rest)[1..] == rest;
  }

  /**
   * The cursor walk over the buffer. `buffer` is the storage the pointer
   * walks: the std::wstring's characters and the terminator it keeps after
   * them. The walk stays inside it exactly when an empty string ends the
   * list somewhere in it.
   */
  method SplitSelection(buffer: seq<char>) returns (files: seq<seq<char>>)
    requires HasListEnd(buffer)
    ensures files == Selection(buffer)
  {
    ghost var k :| 0 <= k < |buffer| - 1 && buffer[k] == '\0' && buffer[k + 1] == '\0';
    var directory := CStringAt(buffer, 0);
    StrLenBelowNul(buffer, 0, k);
    var temp := |directory| + 1;
    files := [];
    if buffer[temp] == '\0' {
      files := [directory];
    } else {
      ghost var all := Qualified(directory, Names(buffer, temp));
      while buffer[temp] != '\0'
        invariant temp <= k + 1
        invariant all == files + Qualified(directory, Names(buffer, temp))
        decreases |buffer| - temp
      {
        var name := CStringAt(buffer, temp);
        QualifiedStep(buffer, directory, temp, k);
        var path := directory + "\\" + name;
        ghost var later := Qualified(directory, Names(buffer, temp + |name| + 1));
        AppendAssociative(files, [path], later);
        assert all == (files + [path]) + later;
        files := files + [path];
        temp := temp + |name| + 1;
      }
    }
  }

  /** A C string read in the buffer is the same whether or not the terminator after the buffer is counted. */
  lemma {:induction false} CStringWithTerminator(buffer: seq<char>, p: nat)
    requires p <= |buffer|
    ensures StrLen(buffer + ['\0'], p) == StrLen(buffer, p)
    ensures CStringAt(buffer + ['\0'], p) == CStringAt(buffer, p)
    decreases |buffer| - p
  {
    var s := buffer + ['\0'];
    if p < |buffer| && buffer[p] != '\0' {
      CStringWithTerminator(buffer, p + 1);
    }
    assert s[p..p + StrLen(buffer, p)] == buffer[p..p + StrLen(buffer, p)];
  }

  /** The walk ends at the terminator just as it ends at the end of the buffer. */
  lemma {:induction false} NamesWithTerminator(buffer: seq<char>, p: nat)
    ensures Names(buffer + ['\0'], p) == Names(buffer, p)
    decreases |buffer| - p
  {
    if p < |buffer| && buffer[p] != '\0' {
      var q := p + StrLen(buffer, p) + 1;
      NamesWithTerminator(buffer, q);
      NameWithTerminator(buffer, p);
    } else {
      NoNameAtTerminator(buffer, p);
    }
  }

  /** One step of NamesWithTerminator: the walk peels off the same string from both. */
  lemma NameWithTerminator(buffer: seq<char>, p: nat)
    requires p < |buffer| && buffer[p] != '\0'
    ensures Names(buffer + ['\0'], p) ==
            [CStringAt(buffer, p)] + Names(buffer + ['\0'], p + StrLen(buffer, p) + 1)
  {
    var s := buffer + ['\0'];
    assert s[p] == buffer[p];
    CStringWithTerminator(buffer, p);
  }

  /** Where the walk over the buffer stops, the walk over the terminated buffer stops too. */
  lemma NoNameAtTerminator(buffer: seq<char>, p: nat)
    requires p >= |buffer| || buffer[p] == '\0'
    ensures Names(buffer + ['\0'], p) == [] == Names(buffer, p)
  {
    var s := buffer + ['\0'];
    if p < |s| {
      assert s[p] == '\0';
    }
  }

  /** The split does not depend on whether the terminator after the buffer is counted. */
  lemma SelectionWithTerminator(buffer: seq<char>)
    ensures Selection(buffer + ['\0']) == Selection(buffer)
  {
    var s := buffer + ['\0'];
    CStringWithTerminator(buffer, 0);
    var next := StrLen(buffer, 0) + 1;
    if next < |buffer| {
      assert s[next] == buffer[next];
      NamesWithTerminator(buffer, next);
    } else if next == |buffer| {
      assert s[next] == '\0';
    }
  }

  /** The strings of `names`, each followed by a NUL. */
  function Joined(names: seq<seq<char>>): seq<char>
  {
    if names == [] then [] else names[0] + ['\0'] + Joined(names[1..])
  }

  /** The buffer a dialog writes for a directory and the names chosen in it (just the path when `names` is empty). */
  function ListBuffer(directory: seq<char>, names: seq<seq<char>>): seq<char>
  {
    directory + ['\0'] + Joined(names) + ['\0']
  }

  lemma {:induction false} JoinedEndsWithNul(names: seq<seq<char>>)
    requires names != []
    ensures |Joined(names)| > 0 && Joined(names)[|Joined(names)| - 1] == '\0'
    decreases |names|
  {
    if names[1..] != [] {
      JoinedEndsWithNul(names[1..]);
    }
  }

  /** A NUL-free word followed by a NUL is the C string read where it starts. */
  lemma WordAt(before: seq<char>, w: seq<char>, after: seq<char>)
    requires NoNul(w)
    ensures StrLen(before + w + ['\0'] + after, |before|) == |w|
    ensures CStringAt(before + w + ['\0'] + after, |before|) == w
  {
    var s := before + w + ['\0'] + after;
    assert s[|before|..|before| + |w|] == w;
    assert s[|before| + |w|] == '\0';
    CStringOfWord(s, |before|, w);
  }

  /** Reading names back from a joined list gives the list. */
  lemma {:induction false} NamesOfJoined(prefix: seq<char>, names: seq<seq<char>>, rest: seq<char>)
    requires ValidNames(names)
    ensures Names(prefix + Joined(names) + ['\0'] + rest, |prefix|) == names
    decreases |names|
  {
    var buffer := prefix + Joined(names) + ['\0'] + rest;
    if names == [] {
      assert buffer[|prefix|] == '\0';
    } else {
      var name := names[0];
      var tail := Joined(names[1..]) + ['\0'] + rest;
      var prefix' := prefix + name + ['\0'];
      assert buffer == prefix + name + ['\0'] + tail;
      assert buffer == prefix' + Joined(names[1..]) + ['\0'] + rest;
      WordAt(prefix, name, tail);
      assert buffer[|prefix|] == name[0];
      NamesOfJoined(prefix', names[1..], rest);
      assert names == [name] + names[1..];
    }
  }

  /** What a dialog writes always carries the end marker: the NUL after the last string and the closing one. */
  lemma ListBufferHasEnd(directory: seq<char>, names: seq<seq<char>>, rest: seq<char>)
    ensures HasListEnd(ListBuffer(directory, names) + rest)
  {
    var buffer := ListBuffer(directory, names) + rest;
    var k := |directory| + |Joined(names)|;
    assert buffer == directory + ['\0'] + Joined(names) + ['\0'] + rest;
    if names == [] {
      assert buffer[k] == '\0';
    } else {
      JoinedEndsWithNul(names);
      assert buffer[k] == Joined(names)[|Joined(names)| - 1];
    }
    assert buffer[k + 1] == '\0';
  }

  /**
   * Splitting what the dialog writes gives back the full paths: the path
   * alone for a single file, otherwise directory\name for every name, in
   * order. Whatever follows the list in the buffer does not matter.
   */
  lemma SelectionOfListBuffer(directory: seq<char>, names: seq<seq<char>>, rest: seq<char>)
    requires NoNul(directory) && ValidNames(names)
    ensures HasListEnd(ListBuffer(directory, names) + rest)
    ensures Selection(ListBuffer(directory, names) + rest) ==
            if names == [] then [directory] else Qualified(directory, names)
  {
    ListBufferHasEnd(directory, names, rest);
    var buffer := ListBuffer(directory, names) + rest;
    assert buffer[0..|directory|] == directory && buffer[|directory|] == '\0';
    CStringOfWord(buffer, 0, directory);
    var head := directory + ['\0'];
    if names == [] {
      assert buffer[|head|] == '\0';
    } else {
      assert buffer == head + Joined(names) + ['\0'] + rest;
      assert buffer[|head|] == names[0][0];
      NamesOfJoined(head, names, rest);
    }
  }

  /** From a string start up to `k + 1`, the buffer holds the names read there, each NUL-terminated, then the empty string. */
  lemma {:induction false} JoinedOfNames(buffer: seq<char>, p: nat, k: nat)
    requires k + 1 < |buffer| && buffer[k] == '\0' && buffer[k + 1] == '\0'
    requires p <= k + 1
    ensures p + |Joined(Names(buffer, p))| <= k + 1
    ensures buffer[p..p + |Joined(Names(buffer, p))| + 1] == Joined(Names(buffer, p)) + ['\0']
    decreases |buffer| - p
  {
    if buffer[p] == '\0' {
      assert Names(buffer, p) == [];
    } else {
      NamesStep(buffer, p, k);
      CStringAtIsWord(buffer, p);
      var name := CStringAt(buffer, p);
      var q := p + |name| + 1;
      JoinedOfNames(buffer, q, k);
      var tail := Names(buffer, q);
      var end := q + |Joined(tail)| + 1;
      assert ([name] + tail)[1..] == tail;
      assert Joined(Names(buffer, p)) == name + ['\0'] + Joined(tail);
      SliceSplit(buffer, p, q, end);
      SliceSplit(buffer, p, p + |name|, q);
      assert buffer[p..q] == name + ['\0'];
      AppendAssociative(name + ['\0'], Joined(tail), ['\0']);
      assert buffer[p..end] == (name + ['\0']) + (Joined(tail) + ['\0']);
    }
  }

  /** The directory, its NUL, and the joined names with their closing NUL start every buffer with an end marker. */
  lemma ListBufferIsPrefix(buffer: seq<char>, k: nat)
    requires k + 1 < |buffer| && buffer[k] == '\0' && buffer[k + 1] == '\0'
    ensures var directory := CStringAt(buffer, 0);
      var prefix := ListBuffer(directory, Names(buffer, |directory| + 1));
      |prefix| <= |buffer| && buffer[..|prefix|] == prefix
  {
    StrLenBelowNul(buffer, 0, k);
    CStringAtIsWord(buffer, 0);
    var directory := CStringAt(buffer, 0);
    var n := |directory|;
    var p := n + 1;
    JoinedOfNames(buffer, p, k);
    var joined := Joined(Names(buffer, p));
    SliceSplit(buffer, 0, p, p + |joined| + 1);
    SliceSplit(buffer, 0, n, p);
    assert buffer[0..p] == directory + ['\0'];
    AppendAssociative(directory + ['\0'], joined, ['\0']);
  }

  /**
   * On every buffer with an end marker, the split is the first string alone
   * when the next one is empty, and otherwise one first\name per non-empty
   * string after it, up to the first empty one; and the buffer starts with
   * those strings laid out as a dialog writes them.
   */
  lemma ListBufferOfSelection(buffer: seq<char>)
    requires HasListEnd(buffer)
    ensures var directory := CStringAt(buffer, 0);
      var names := Names(buffer, |directory| + 1);
      var prefix := ListBuffer(directory, names);
      ValidNames(names) && |prefix| <= |buffer| && buffer == prefix + buffer[|prefix|..] &&
      Selection(buffer) == if names == [] then [directory] else Qualified(directory, names)
  {
    var k :| 0 <= k < |buffer| - 1 && buffer[k] == '\0' && buffer[k + 1] == '\0';
    ListBufferIsPrefix(buffer, k);
    CStringAtIsWord(buffer, 0);
    var directory := CStringAt(buffer, 0);
    var names := Names(buffer, |directory| + 1);
    NamesAreValid(buffer, |directory| + 1);
    var prefix := ListBuffer(directory, names);
    var rest := buffer[|prefix|..];
    TakeDrop(buffer, |prefix|);
    SelectionOfListBuffer(directory, names, rest);
  }

  /** The documented two-file case: one directory and two names give two full paths. */
  lemma TwoFiles(directory: seq<char>, first: seq<char>, second: seq<char>)
    requires NoNul(directory) && NoNul(first) && NoNul(second) && first != [] && second != []
    ensures Selection(directory + ['\0'] + first + ['\0'] + second + ['\0', '\0']) ==
            [directory + "\\" + first, directory + "\\" + second]
  {
    var names := [first, second];
    assert names[1..] == [second] && [second][1..] == [];
    assert Qualified(directory, [second]) == [directory + "\\" + second];
    assert Qualified(directory, names) == [directory + "\\" + first, directory + "\\" + second];
    assert Joined([second]) == second + ['\0'];
    assert Joined(names) == first + ['\0'] + second + ['\0'];
    assert ListBuffer(directory, names) + [] == directory + ['\0'] + first + ['\0'] + second + ['\0', '\0'];
    SelectionOfListBuffer(directory, names, []);
  }
}
