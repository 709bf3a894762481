/**
 * pkg/wg/wgapi/internal/parser/scanner.go, driven by bufio.Scanner over a bytes.Buffer. The
 * buffer of the scanner is unbounded here.
 */
module Scanner {
  import opened Prelude
  import opened Text

  datatype Split = Split(advance: nat, token: Option<string>, failed: bool)

  /** ScanLines: a token per newline, and an error for an unterminated rest at the end of input. */
  function ScanLines(data: string, atEOF: bool): Split {
    if atEOF && data == "" then Split(0, None, false)
    else
      var i := IndexOf(data, '\n');
      if i < |data| then Split(i + 1, Some(data[..i]), false)
      else if atEOF then Split(0, None, true)
      else Split(0, None, false)
  }

  // ---- What splitting the whole text at newlines gives ----

  function Lines(text: string): (lines: seq<string>)
    decreases |text|
  {
    var i := IndexOf(text, '\n');
    if i == |text| then [] else [text[..i]] + Lines(text[i + 1..])
  }

  /** What follows the last newline. */
  function Tail(text: string): string
    decreases |text|
  {
    var i := IndexOf(text, '\n');
    if i == |text| then text else Tail(text[i + 1..])
  }

  function Unlines(lines: seq<string>): string {
    if lines == [] then "" else lines[0] + ['\n'] + Unlines(lines[1..])
  }

  predicate AreLines(lines: seq<string>) {
    forall k :: 0 <= k < |lines| ==> '\n' !in lines[k]
  }

  lemma FirstLine(line: string, rest: string)
    requires '\n' !in line
    ensures var text := line + ['\n'] + rest;
      && IndexOf(text, '\n') == |line| < |text|
      && text[..|line|] == line && text[|line| + 1..] == rest
  {
    var text := line + ['\n'] + rest;
    var i := IndexOf(text, '\n');
    assert text[|line|] == '\n';
    assert i <= |line| by {
      assert forall k :: 0 <= k < i ==> text[..i][k] == text[k];
    }
    assert i >= |line| by {
      assert forall k :: 0 <= k < |line| ==> text[k] == line[k];
    }
  }

  lemma SplitCons(line: string, rest: string)
    requires '\n' !in line
    ensures Lines(line + ['\n'] + rest) == [line] + Lines(rest)
    ensures Tail(line + ['\n'] + rest) == Tail(rest)
  {
    FirstLine(line, rest);
  }

  lemma SplitEnd(tail: string)
    requires '\n' !in tail
    ensures Lines(tail) == [] && Tail(tail) == tail
  {
    assert IndexOf(tail, '\n') == |tail|;
  }

  lemma UnlinesFirst(lines: seq<string>, end: string)
    requires lines != []
    ensures Unlines(lines) + end == lines[0] + ['\n'] + (Unlines(lines[1..]) + end)
  {
  }

  lemma UnlinesNone(end: string)
    ensures Unlines([]) + end == end
  {
  }

  /** Lines and Tail are the one way of cutting a text after each of its newlines. */
  lemma {:induction false} SplitUnique(lines: seq<string>, tail: string)
    requires AreLines(lines) && '\n' !in tail
    ensures Lines(Unlines(lines) + tail) == lines && Tail(Unlines(lines) + tail) == tail
  {
    if lines == [] {
      UnlinesNone(tail);
      SplitEnd(tail);
    } else {
      var rest := Unlines(lines[1..]) + tail;
      SplitCons(lines[0], rest);
      UnlinesFirst(lines, tail);
      SplitUnique(lines[1..], tail);
    }
  }

  lemma {:induction false} SplitJoins(text: string)
    ensures AreLines(Lines(text)) && '\n' !in Tail(text)
    ensures Unlines(Lines(text)) + Tail(text) == text
    decreases |text|
  {
    var i := IndexOf(text, '\n');
    if i < |text| {
      var line, rest := text[..i], text[i + 1..];
      SplitJoins(rest);
      UnlinesCons(line, Lines(rest));
      JoinRest(text, line, rest, Unlines(Lines(rest)), Tail(rest));
    } else {
      assert text[..i] == text;
    }
  }

  lemma JoinRest(text: string, line: string, rest: string, joined: string, tail: string)
    requires joined + tail == rest && |line| < |text|
    requires text[..|line|] == line && text[|line|] == '\n' && text[|line| + 1..] == rest
    ensures line + ['\n'] + joined + tail == text
  {
    assert line + ['\n'] + joined + tail == line + ['\n'] + rest;
  }

  lemma UnlinesCons(line: string, lines: seq<string>)
    ensures Unlines([line] + lines) == line + ['\n'] + Unlines(lines)
  {
    assert ([line] + lines)[1..] == lines;
  }

  lemma {:induction false} UnlinesAppend(a: seq<string>, b: seq<string>)
    ensures Unlines(a + b) == Unlines(a) + Unlines(b)
  {
    if a == [] {
      assert a + b == b;
    } else {
      UnlinesAppend(a[1..], b);
      assert a + b == [a[0]] + (a[1..] + b);
      UnlinesCons(a[0], a[1..] + b);
    }
  }

  // ---- The scanner ----

  /** bytes.Buffer */
  class Buffer {
    var data: string

    constructor ()
      ensures data == ""
    {
      data := "";
    }

    method Write(b: string)
      modifies this
      ensures data == old(data) + b
    {
      data := data + b;
    }

    method Reset()
      modifies this
      ensures data == ""
    {
      data := "";
    }

    /** Takes some of the data, in pieces of any size; at its end it reports EOF. */
    method Read() returns (chunk: string, eof: bool)
      modifies this
      ensures old(data) == chunk + data
      ensures eof <==> old(data) == ""
      ensures chunk != "" <==> old(data) != ""
    {
      if data == "" {
        return "", true;
      }
      var n: nat :| 1 <= n <= |data|;
      chunk, eof, data := data[..n], false, data[n..];
    }
  }

  /** The error field of bufio.Scanner. */
  datatype ScanError = NoError | EOF | Malformed

  /** bufio.Scanner with ScanLines as its split function. */
  class LineScanner {
    const src: Buffer
    var buf: string
    var err: ScanError
    var token: string

    ghost predicate Valid()
      reads this, src
    {
      && (err.NoError? || src.data == "")
      && (err.Malformed? ==> buf != "" && '\n' !in buf)
    }

    /** The input not handed out yet. */
    ghost function Remaining(): string
      reads this, src
    {
      buf + src.data
    }

    constructor (src: Buffer)
      ensures Valid() && this.src == src && Remaining() == src.data && err.NoError?
    {
      this.src, buf, err, token := src, "", NoError, "";
    }

    /** However the source hands out its bytes, Scan returns the text up to the next newline. */
    method Scan() returns (more: bool)
      requires Valid()
      modifies this, src
      ensures Valid()
      ensures more <==> '\n' in old(Remaining())
      ensures more ==> !err.Malformed? && old(Remaining()) == token + ['\n'] + Remaining() && '\n' !in token
      ensures !more ==> Remaining() == old(Remaining()) && src.data == ""
      ensures !more ==> err == if Remaining() == "" then EOF else Malformed
    {
      while true
        invariant Valid() && Remaining() == old(Remaining())
        decreases |src.data|, if err.NoError? then 1 else 0
      {
        if buf != "" || !err.NoError? {
          var split := ScanLines(buf, !err.NoError?);
          if split.failed {
            err := Malformed;
            return false;
          }
          if split.token.Some? {
            ghost var i := split.advance - 1;
            assert buf == buf[..i] + ['\n'] + buf[i + 1..];
            buf, token := buf[split.advance..], split.token.value;
            return true;
          }
        }
        if !err.NoError? {
          buf := "";
          return false;
        }
        var chunk, eof := src.Read();
        buf := buf + chunk;
        if eof {
          err := EOF;
        }
      }
    }

    /** Err reports EOF as no error. */
    method Err() returns (failed: bool)
      ensures failed == err.Malformed?
    {
      failed := err.Malformed?;
    }
  }

  /**
   * Scanning to the end yields the lines of the whole text, and an error exactly if something
   * follows the last newline, however the bytes arrive.
   */
  method ScanAll(src: Buffer) returns (lines: seq<string>, failed: bool)
    modifies src
    ensures lines == Lines(old(src.data))
    ensures failed <==> Tail(old(src.data)) != ""
    ensures src.data == ""
  {
    ghost var whole := src.data;
    var sc := new LineScanner(src);
    lines := [];
    while true
      invariant sc.Valid() && sc.src == src && fresh(sc)
      invariant Scanned(whole, lines, sc.Remaining())
      decreases |sc.Remaining()|
    {
      ghost var before := sc.Remaining();
      var more := sc.Scan();
      if !more {
        SplitEnd(before);
        failed := sc.Err();
        return;
      }
      ScanOn(whole, lines, before, sc.token, sc.Remaining());
      lines := lines + [sc.token];
    }
  }

  /** `lines` have been scanned off the front of a text, and `rest` is left. */
  ghost predicate Scanned(whole: string, lines: seq<string>, rest: string) {
    Lines(whole) == lines + Lines(rest) && Tail(whole) == Tail(rest)
  }

  lemma ScanOn(whole: string, lines: seq<string>, before: string, line: string, rest: string)
    requires Scanned(whole, lines, before)
    requires before == line + ['\n'] + rest && '\n' !in line
    ensures Scanned(whole, lines + [line], rest)
  {
    SplitCons(line, rest);
    assert lines + ([line] + Lines(rest)) == lines + [line] + Lines(rest);
  }
}
