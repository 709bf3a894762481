/** How IPCGet.Value fails: which texts give which error, and what is left in the buffer. */
module IpcFailures {
  import opened Prelude
  import opened Text
  import opened Scanner
  import opened Ipc
  import opened IpcTheorems
  import Hex
  import Injective

  // ---- The first line that does not read ----

  /** The three reasons: no equals sign, an unknown name before the first one, a value its key does not take. */
  lemma LineErrors(line: string)
    ensures ReadLine(line) == Failure(NoEquals) <==> '=' !in line
    ensures ReadLine(line) == Failure(UnknownKey) <==>
      exists name, value :: '=' !in name && line == name + ['='] + value && forall key :: Name(key) != name
  {
    var cut := Cut(line, '=');
    if ReadLine(line) == Failure(UnknownKey) {
      assert '=' !in cut.0 && line == cut.0 + ['='] + cut.1;
      assert forall key :: Name(key) != cut.0;
    }
    forall name, value | '=' !in name && line == name + ['='] + value && forall key :: Name(key) != name
      ensures ReadLine(line) == Failure(UnknownKey)
    {
      CutAt(name, '=', value);
    }
  }

  /** Assignments, and then the given line, which ends the reading. */
  ghost predicate StopsAt(text: string, lines: seq<string>, line: string, rest: string) {
    && Assignments(lines)
    && line != "" && '\n' !in line
    && text == Unlines(lines) + (line + ['\n'] + rest)
  }

  lemma StopDecodes(text: string, lines: seq<string>, line: string, rest: string)
    requires StopsAt(text, lines, line, rest) && ReadLine(line).Failure?
    ensures Decode(text) == Reading([], Some(ReadLine(line).error))
  {
    DecodeLines(lines, line + ['\n'] + rest);
    DecodeLine(line, rest);
  }

  lemma ExtendFails(line: Result<Entry, Error>, rest: Reading)
    requires Extend(line, rest).err.Some?
    ensures line.Failure? ==> Extend(line, rest).err == Some(line.error)
    ensures line.Success? ==> Extend(line, rest).err == rest.err
  {
  }

  lemma FirstLineOf(text: string) returns (line: string, after: string)
    requires '\n' in text
    ensures text == line + ['\n'] + after && '\n' !in line && |after| < |text|
  {
    var i := IndexOf(text, '\n');
    line, after := text[..i], text[i + 1..];
  }

  /** Where a text fails, its first line fails itself or it reads and the rest fails. */
  lemma FirstFails(text: string, line: string, after: string)
    requires text == line + ['\n'] + after && '\n' !in line && Decode(text).err.Some?
    ensures line != ""
    ensures ReadLine(line) == Failure(Decode(text).err.value) ||
            (IsAssignment(line) && Decode(after).err == Decode(text).err)
  {
    DecodeLine(line, after);
    if line != "" {
      ExtendFails(ReadLine(line), Decode(after));
      AssignmentReads(line);
    }
  }

  lemma NoLineFails(text: string)
    requires '\n' !in text
    ensures Decode(text).err.None? || Decode(text).err == Some(Unterminated)
  {
    DecodeEnd(text);
  }

  lemma {:induction false} FailedForm(text: string) returns (lines: seq<string>, line: string, rest: string)
    requires Decode(text).err.Some? && Decode(text).err != Some(Unterminated)
    ensures StopsAt(text, lines, line, rest) && ReadLine(line) == Failure(Decode(text).err.value)
    decreases |text|
  {
    if '\n' !in text {
      NoLineFails(text);
    }
    var first, after := FirstLineOf(text);
    FirstFails(text, first, after);
    if ReadLine(first) == Failure(Decode(text).err.value) {
      lines, line, rest := [], first, after;
      UnlinesNone(text);
    } else {
      var more;
      more, line, rest := FailedForm(after);
      lines := [first] + more;
      StopCons(text, first, after, more, line, rest);
    }
  }

  lemma StopCons(text: string, first: string, after: string, more: seq<string>, line: string, rest: string)
    requires text == first + ['\n'] + after && IsAssignment(first) && StopsAt(after, more, line, rest)
    ensures StopsAt(text, [first] + more, line, rest)
  {
    assert Assignments([first] + more);
    UnlinesCons(first, more);
    JoinAfter(first + ['\n'], Unlines(more), line + ['\n'] + rest);
  }

  lemma JoinAfter(front: string, middle: string, end: string)
    ensures front + (middle + end) == front + middle + end
  {
  }

  /** Value fails at a line exactly if assignments come first and that line fails with that error. */
  lemma FailsExactly(text: string, err: Error)
    requires err != Unterminated
    ensures Decode(text).err == Some(err) <==>
      exists lines, line, rest :: StopsAt(text, lines, line, rest) && ReadLine(line) == Failure(err)
  {
    if Decode(text).err == Some(err) {
      var lines, line, rest := FailedForm(text);
    }
    forall lines, line, rest | StopsAt(text, lines, line, rest) && ReadLine(line) == Failure(err)
      ensures Decode(text).err == Some(err)
    {
      StopDecodes(text, lines, line, rest);
    }
  }

  // ---- The missing newline at the end ----

  /** All lines read and the text ends without a newline: the reading has used it up. */
  lemma DecodeWhole(text: string)
    requires Assignments(Lines(text))
    ensures Decode(text) == Reading(ReadAll(Lines(text)), if Tail(text) == "" then None else Some(Unterminated))
    ensures "" !in Lines(text)
  {
    SplitJoins(text);
    DecodeLines(Lines(text), Tail(text));
    DecodeEnd(Tail(text));
    assert ReadAll(Lines(text)) + [] == ReadAll(Lines(text));
    NoBlank(Lines(text));
  }

  lemma NoBlank(lines: seq<string>)
    requires Assignments(lines)
    ensures "" !in lines
  {
    forall k | 0 <= k < |lines|
      ensures lines[k] != ""
    {
      AssignmentIsNotBlank(lines[k]);
    }
  }

  lemma {:induction false} UnterminatedForm(text: string)
    requires Decode(text).err == Some(Unterminated)
    ensures Assignments(Lines(text))
    decreases |text|
  {
    if '\n' !in text {
      SplitEnd(text);
    } else {
      var line, after := FirstLineOf(text);
      FirstFails(text, line, after);
      LineNeverUnterminated(line);
      UnterminatedForm(after);
      SplitCons(line, after);
      AssignmentsCons(line, Lines(after));
    }
  }

  lemma AssignmentsCons(line: string, lines: seq<string>)
    requires IsAssignment(line) && Assignments(lines)
    ensures Assignments([line] + lines)
  {
  }

  lemma LineNeverUnterminated(line: string)
    ensures ReadLine(line) != Failure(Unterminated)
  {
  }

  /** A missing last newline is reported exactly if all lines before it read. */
  lemma UnterminatedExactly(text: string)
    ensures Decode(text).err == Some(Unterminated) <==> Assignments(Lines(text)) && Tail(text) != ""
  {
    if Decode(text).err == Some(Unterminated) {
      UnterminatedForm(text);
    }
    if Assignments(Lines(text)) {
      DecodeWhole(text);
    }
  }

  // ---- The bounds check in ParseKey ----

  /** A value that hex.Decode writes past a key's 32 bytes. */
  predicate Overruns(key: Key, value: string) {
    KindOf(key).KeyBytes? && |value| >= 66 && Hex.AllHex(value[..66])
  }

  lemma PanicLine(line: string)
    ensures ReadLine(line) == Failure(BoundsPanic) <==>
      exists key, value :: Overruns(key, value) && line == Name(key) + ['='] + value
  {
    forall key, value | Overruns(key, value) && line == Name(key) + ['='] + value
      ensures ReadLine(line) == Failure(BoundsPanic)
    {
      LineReads(key, value);
    }
    if ReadLine(line) == Failure(BoundsPanic) {
      var cut := Cut(line, '=');
      assert Overruns(Lookup(cut.0).value, cut.1);
    }
  }

  /**
   * Value runs into the bounds check exactly on the texts in which assignments are followed by a
   * line that gives a key 66 hex digits or more.
   */
  lemma PanicsExactly(text: string)
    ensures Decode(text).err == Some(BoundsPanic) <==>
      exists lines, key, value, rest :: Overruns(key, value) && StopsAt(text, lines, Name(key) + ['='] + value, rest)
  {
    if Decode(text).err == Some(BoundsPanic) {
      var lines, line, rest := FailedForm(text);
      PanicLine(line);
      var key, value :| Overruns(key, value) && line == Name(key) + ['='] + value;
      assert StopsAt(text, lines, Name(key) + ['='] + value, rest);
    }
    forall lines, key, value, rest | Overruns(key, value) && StopsAt(text, lines, Name(key) + ['='] + value, rest)
      ensures Decode(text).err == Some(BoundsPanic)
    {
      PanicLine(Name(key) + ['='] + value);
      StopDecodes(text, lines, Name(key) + ['='] + value, rest);
    }
  }

  /** One line that overruns: 66 zeros for a public key. */
  lemma PanicsOnZeros()
    ensures Decode("public_key=" + seq(66, _ => '0') + "\n").err == Some(BoundsPanic)
  {
    var zeros: string := seq(66, _ => '0');
    var text := "public_key=" + zeros + "\n";
    assert Hex.AllHex(zeros[..66]);
    var line := Name(PublicKey) + ['='] + zeros;
    assert text == line + ['\n'] + "";
    KeysAreDistinct(PublicKey);
    PanicLine(line);
    DecodeLine(line, "");
  }

  // ---- Reading twice ----

  /**
   * Value consumes the buffer. Without Reset a second reading sees what the first left and then
   * what was written since; if all lines of the first text read, it left nothing.
   */
  method ReadTwice(first: string, second: string) returns (a: Reading, b: Reading, ghost rest: string)
    ensures a == Decode(first)
    ensures IsSuffix(rest, first) && b == Decode(rest + second)
    ensures Assignments(Lines(first)) ==> rest == "" && b == Decode(second)
  {
    var get := new IPCGet();
    get.Write(first);
    assert get.buf.data == first;
    var ipc, err := get.Value();
    a := Reading(ipc, err);
    rest := get.buf.data;
    if Assignments(Lines(first)) {
      DecodeWhole(first);
    }
    get.Write(second);
    ipc, err := get.Value();
    b := Reading(ipc, err);
    assert rest == "" ==> rest + second == second;
  }

  lemma PrintedLinesRead(entries: seq<Entry>)
    requires AllTyped(entries) && AllSurvive(entries)
    ensures Assignments(Lines(Encode(entries)))
  {
    Injective.EncodeSplits(entries);
    forall k | 0 <= k < |entries|
      ensures IsAssignment(LineOf(entries[k]))
    {
      assert SurvivesEntry(entries[k]);
      EntryRoundTrip(entries[k]);
      AssignmentReads(LineOf(entries[k]));
    }
  }

  /** Two operations through one IPCGet without Reset: the second reading is the second one's data. */
  method UseTwice(x: seq<Entry>, y: seq<Entry>) returns (a: Reading, b: Reading)
    requires AllTyped(x) && AllSurvive(x) && AllTyped(y) && AllSurvive(y)
    ensures a == Reading(CanonicalList(x), None) && b == Reading(CanonicalList(y), None)
  {
    RoundTrip(x);
    RoundTrip(y);
    PrintedLinesRead(x);
    var first := WGConfig(x);
    var second := WGConfig(y);
    ghost var rest;
    a, b, rest := ReadTwice(first, second);
  }

  lemma OneEntry(e: Entry)
    requires e.WellTyped() && SurvivesEntry(e) && CanonicalEntry(e) == e
    ensures AllTyped([e]) && AllSurvive([e]) && CanonicalList([e]) == [e]
  {
  }

  /** Not the data of the first use, which is what would come back if Reset were needed. */
  method SecondUseDiffers() returns (a: Reading, b: Reading)
    ensures a == Reading([Entry(Get, Constant)], None)
    ensures b == Reading([Entry(Set, Constant)], None)
  {
    OneEntry(Entry(Get, Constant));
    OneEntry(Entry(Set, Constant));
    a, b := UseTwice([Entry(Get, Constant)], [Entry(Set, Constant)]);
  }
}
