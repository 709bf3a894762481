/** What the printer and the reader of wgapi promise together. */
module IpcTheorems {
  import opened Prelude
  import opened Text
  import opened Scanner
  import opened Ipc

  // ---- Round trips ----

  function CanonicalEntry(e: Entry): Entry
    requires e.WellTyped()
  {
    Entry(e.key, CanonicalValue(KindOf(e.key), e.value))
  }

  function CanonicalList(entries: seq<Entry>): (r: seq<Entry>)
    requires AllTyped(entries)
    ensures |r| == |entries|
  {
    seq(|entries|, k requires 0 <= k < |entries| => CanonicalEntry(entries[k]))
  }

  predicate SurvivesEntry(e: Entry)
    requires e.WellTyped()
  {
    Survives(KindOf(e.key), e.value)
  }

  predicate AllSurvive(entries: seq<Entry>)
    requires AllTyped(entries)
  {
    forall k :: 0 <= k < |entries| ==> SurvivesEntry(entries[k])
  }

  lemma LookupName(key: Key)
    ensures Lookup(Name(key)) == Some(key)
  {
    NamesAreFound(key);
    NamesAreFound(Lookup(Name(key)).value);
  }

  /** A line written for an entry is cut and parsed as that entry's key and value. */
  lemma LineReads(key: Key, value: string)
    ensures ReadLine(Name(key) + ['='] + value) == ReadEntry(key, value)
  {
    KeysAreDistinct(key);
    CutAt(Name(key), '=', value);
    LookupName(key);
  }

  lemma EntryRoundTrip(e: Entry)
    requires e.WellTyped()
    ensures '\n' !in LineOf(e) && LineOf(e) != ""
    ensures ReadLine(LineOf(e)) == Success(CanonicalEntry(e)) <==> SurvivesEntry(e)
  {
    KeysAreDistinct(e.key);
    PrintStaysOnLine(KindOf(e.key), e.value);
    LineReads(e.key, Print(KindOf(e.key), e.value));
    ValueRoundTrip(KindOf(e.key), e.value);
  }

  lemma DecodeFirst(entries: seq<Entry>)
    requires AllTyped(entries) && entries != []
    ensures AllTyped(entries[1..])
    ensures Decode(Encode(entries)) == Extend(ReadLine(LineOf(entries[0])), Decode(Encode(entries[1..])))
  {
    var e, rest := entries[0], entries[1..];
    EncodeOne(e);
    EncodeAppend([e], rest);
    assert [e] + rest == entries;
    EntryRoundTrip(e);
    DecodeLine(LineOf(e), Encode(rest));
  }

  lemma ConsUnique(a: Entry, x: seq<Entry>, b: Entry, y: seq<Entry>)
    requires [a] + x == [b] + y
    ensures a == b && x == y
  {
    assert ([a] + x)[0] == a && ([a] + x)[1..] == x;
    assert ([b] + y)[0] == b && ([b] + y)[1..] == y;
  }

  lemma CanonicalFirst(entries: seq<Entry>)
    requires AllTyped(entries) && entries != []
    ensures AllTyped(entries[1..])
    ensures CanonicalList(entries) == [CanonicalEntry(entries[0])] + CanonicalList(entries[1..])
    ensures AllSurvive(entries) <==> SurvivesEntry(entries[0]) && AllSurvive(entries[1..])
  {
    var rest := entries[1..];
    if SurvivesEntry(entries[0]) && AllSurvive(rest) {
      forall k | 0 <= k < |entries|
        ensures SurvivesEntry(entries[k])
      {
        if k > 0 {
          assert SurvivesEntry(rest[k - 1]);
        }
      }
    }
    if AllSurvive(entries) {
      forall k | 0 <= k < |rest|
        ensures SurvivesEntry(rest[k])
      {
        assert SurvivesEntry(entries[k + 1]);
      }
    }
  }

  /**
   * Reading what WGConfig printed gives back the whole list without an error, addresses and
   * subnets in the parser's own form, exactly if every entry survives: numbers below 2^63, ports
   * below 2^16 and contiguous masks.
   */
  lemma {:induction false} RoundTrip(entries: seq<Entry>)
    requires AllTyped(entries)
    ensures Decode(Encode(entries)) == Reading(CanonicalList(entries), None) <==> AllSurvive(entries)
  {
    if entries == [] {
      DecodeEnd("");
    } else {
      var rest := entries[1..];
      DecodeFirst(entries);
      CanonicalFirst(entries);
      EntryRoundTrip(entries[0]);
      RoundTrip(rest);
      var line, r := ReadLine(LineOf(entries[0])), Decode(Encode(rest));
      if Extend(line, r) == Reading(CanonicalList(entries), None) {
        ConsUnique(line.value, r.ipc, CanonicalEntry(entries[0]), CanonicalList(rest));
      }
    }
  }

  lemma EntryReadsItself(e: Entry)
    requires e.WellTyped()
    ensures ReadLine(LineOf(e)) == Success(e) <==> SurvivesEntry(e) && CanonicalEntry(e) == e
  {
    LineReads(e.key, Print(KindOf(e.key), e.value));
    ValueReadsItself(KindOf(e.key), e.value);
  }

  /** The list itself comes back exactly if besides it is in the parser's own form. */
  lemma {:induction false} RoundTripExact(entries: seq<Entry>)
    requires AllTyped(entries)
    ensures Decode(Encode(entries)) == Reading(entries, None) <==>
            AllSurvive(entries) && CanonicalList(entries) == entries
  {
    if entries == [] {
      DecodeEnd("");
    } else {
      var first, rest := entries[0], entries[1..];
      assert entries == [first] + rest;
      DecodeFirst(entries);
      CanonicalFirst(entries);
      EntryReadsItself(first);
      RoundTripExact(rest);
      var line, r := ReadLine(LineOf(first)), Decode(Encode(rest));
      if Extend(line, r) == Reading(entries, None) {
        ConsUnique(line.value, r.ipc, first, rest);
      }
      if CanonicalList(entries) == entries {
        ConsUnique(CanonicalEntry(first), CanonicalList(rest), first, rest);
      }
    }
  }

  // ---- Which texts Value accepts ----

  /** A known key, '=', and a value its parser accepts, on one line. */
  ghost predicate IsAssignment(line: string) {
    '\n' !in line && exists key, value :: IsAssignmentOf(line, key, value)
  }

  ghost predicate IsAssignmentOf(line: string, key: Key, value: string) {
    line == Name(key) + ['='] + value && Read(KindOf(key), value).Success?
  }

  lemma AssignmentReads(line: string)
    requires '\n' !in line
    ensures IsAssignment(line) <==> ReadLine(line).Success?
  {
    if IsAssignment(line) {
      var key, value :| IsAssignmentOf(line, key, value);
      LineReads(key, value);
    }
    if ReadLine(line).Success? {
      var cut := Cut(line, '=');
      assert IsAssignmentOf(line, Lookup(cut.0).value, cut.1);
    }
  }

  ghost predicate Assignments(lines: seq<string>) {
    forall k :: 0 <= k < |lines| ==> IsAssignment(lines[k])
  }

  /** The text is these lines, and then nothing or a blank line and anything. */
  ghost predicate HasForm(text: string, lines: seq<string>, rest: string) {
    text == Unlines(lines) || text == Unlines(lines) + ['\n'] + rest
  }

  lemma AssignmentIsNotBlank(line: string)
    requires IsAssignment(line)
    ensures line != ""
  {
  }

  /** Reading whole lines before any rest: all of them, then the rest. */
  lemma {:induction false} DecodeLines(lines: seq<string>, rest: string)
    requires Assignments(lines)
    ensures Decode(Unlines(lines) + rest) == After(ReadAll(lines), Decode(rest))
  {
    if lines == [] {
      UnlinesNone(rest);
      AfterNothing(Decode(rest));
    } else {
      var more := Unlines(lines[1..]) + rest;
      UnlinesFirst(lines, rest);
      assert IsAssignment(lines[0]);
      AssignmentReads(lines[0]);
      AssignmentIsNotBlank(lines[0]);
      DecodeLine(lines[0], more);
      DecodeLines(lines[1..], rest);
      AfterCons(ReadLine(lines[0]).value, ReadAll(lines[1..]), Decode(rest));
    }
  }

  lemma AfterNothing(r: Reading)
    ensures After([], r) == r
  {
    assert [] + r.ipc == r.ipc;
  }

  lemma AfterCons(e: Entry, entries: seq<Entry>, r: Reading)
    ensures After([e], After(entries, r)) == After([e] + entries, r)
  {
    assert [e] + (entries + r.ipc) == [e] + entries + r.ipc;
  }

  /** The entries of lines that all read. */
  ghost function ReadAll(lines: seq<string>): seq<Entry>
    requires Assignments(lines)
  {
    if lines == [] then []
    else
      AssignmentReads(lines[0]);
      assert IsAssignment(lines[0]);
      [ReadLine(lines[0]).value] + ReadAll(lines[1..])
  }

  lemma ExtendSucceeds(line: Result<Entry, Error>, rest: Reading)
    requires Extend(line, rest).err.None?
    ensures line.Success? && rest.err.None?
  {
  }

  /** The lines of an accepted text, and what follows its first blank line. */
  lemma {:induction false} AcceptedForm(text: string) returns (lines: seq<string>, rest: string)
    requires Decode(text).err.None?
    ensures Assignments(lines) && HasForm(text, lines, rest)
    decreases |text|
  {
    var i := IndexOf(text, '\n');
    if i == |text| {
      lines, rest := [], "";
    } else if i == 0 {
      lines, rest := [], text[1..];
      assert text == Unlines([]) + ['\n'] + rest;
    } else {
      var line, after := text[..i], text[i + 1..];
      ExtendSucceeds(ReadLine(line), Decode(after));
      AssignmentReads(line);
      var more;
      more, rest := AcceptedForm(after);
      lines := [line] + more;
      FormCons(text, line, after, more, rest);
      assert Assignments(lines);
    }
  }

  lemma FormCons(text: string, line: string, after: string, more: seq<string>, rest: string)
    requires |line| < |text| && text[..|line|] == line && text[|line|] == '\n' && text[|line| + 1..] == after
    requires HasForm(after, more, rest)
    ensures HasForm(text, [line] + more, rest)
  {
    UnlinesCons(line, more);
    assert text == line + ['\n'] + after;
    if after == Unlines(more) + ['\n'] + rest {
      assert line + ['\n'] + (Unlines(more) + ['\n'] + rest) == line + ['\n'] + Unlines(more) + ['\n'] + rest;
    }
  }

  /**
   * Value succeeds exactly on the texts made of newline-terminated assignments up to the end or
   * up to a blank line, and then returns one entry per line.
   */
  lemma AcceptedExactly(text: string)
    ensures Decode(text).err.None? <==> exists lines, rest :: Assignments(lines) && HasForm(text, lines, rest)
    ensures forall lines, rest :: Assignments(lines) && HasForm(text, lines, rest) ==>
      Decode(text) == Reading(ReadAll(lines), None)
  {
    forall lines, rest | Assignments(lines) && HasForm(text, lines, rest)
      ensures Decode(text) == Reading(ReadAll(lines), None)
    {
      FormDecodes(text, lines, rest);
    }
    if Decode(text).err.None? {
      var lines, rest := AcceptedForm(text);
    }
  }

  lemma FormDecodes(text: string, lines: seq<string>, rest: string)
    requires Assignments(lines) && HasForm(text, lines, rest)
    ensures Decode(text) == Reading(ReadAll(lines), None)
  {
    if text == Unlines(lines) {
      DecodeLinesThen(text, lines, "");
    } else {
      FormRegroup(Unlines(lines), rest);
      DecodeLinesThen(text, lines, ['\n'] + rest);
    }
  }

  lemma FormRegroup(front: string, rest: string)
    ensures front + ['\n'] + rest == front + (['\n'] + rest)
  {
  }

  lemma DecodeLinesThen(text: string, lines: seq<string>, end: string)
    requires Assignments(lines) && text == Unlines(lines) + end && (end == "" || end[0] == '\n')
    ensures Decode(text) == Reading(ReadAll(lines), None)
  {
    DecodeLines(lines, end);
    if end == "" {
      DecodeEnd(end);
    } else {
      DecodeBlank(end[1..]);
      assert ['\n'] + end[1..] == end;
    }
    assert Decode(end) == Reading([], None);
    assert ReadAll(lines) + [] == ReadAll(lines);
  }

  /** Whatever stands before a blank line, good or bad, what stands after it never matters. */
  lemma {:induction false} BlankLineEnds(lines: seq<string>, rest: string, other: string)
    requires AreLines(lines)
    ensures Decode(Unlines(lines) + (['\n'] + rest)) == Decode(Unlines(lines) + (['\n'] + other))
  {
    if lines == [] {
      DecodeBlank(rest);
      DecodeBlank(other);
      UnlinesNone(['\n'] + rest);
      UnlinesNone(['\n'] + other);
    } else {
      var a, b := Unlines(lines[1..]) + (['\n'] + rest), Unlines(lines[1..]) + (['\n'] + other);
      BlankLineEnds(lines[1..], rest, other);
      DecodeLine(lines[0], a);
      DecodeLine(lines[0], b);
      UnlinesFirst(lines, ['\n'] + rest);
      UnlinesFirst(lines, ['\n'] + other);
    }
  }

  lemma DecodeBlank(rest: string)
    ensures Decode(['\n'] + rest) == Reading([], None)
  {
    DecodeLine("", rest);
    assert "" + ['\n'] + rest == ['\n'] + rest;
  }
}
