/** Commands from the Qt client: newline-terminated lines cut out of a byte stream. */
module CommandLines {
  import opened Framing
  import opened Search
  import opened Sequences
  import opened Wrappers

  /** What one SSL_read reports. */
  datatype ReadResult = Data(rx: string) | WantRetry | Failed

  const NUL := 0 as char

  /** `string(rx_buffer)`: the characters before the first NUL. */
  function CString(rx: string): (s: string)
    ensures s <= rx && NUL !in s
    ensures s == rx <==> NUL !in rx
    ensures |s| < |rx| ==> rx[|s|] == NUL
  {
    if rx == [] || rx[0] == NUL then [] else
      var s := [rx[0]] + CString(rx[1..]);
      assert rx == [rx[0]] + rx[1..];
      s
  }

  function NextLine(s: string): Cut<string> {
    match Find(s, ['\n'], 0)
    case None => Wait
    case Some(pos) => Frame(s[..pos], pos + 1)
  }

  predicate IsCommand(line: string) {
    line != "" && line != "\r"
  }

  function Commands(lines: seq<string>): seq<string> {
    if lines == [] then []
    else (if IsCommand(lines[0]) then [lines[0]] else []) + Commands(lines[1..])
  }

  lemma {:induction false} CommandsAppend(a: seq<string>, b: seq<string>)
    ensures Commands(a + b) == Commands(a) + Commands(b)
  {
    if a == [] {
      assert a + b == b;
    } else {
      assert (a + b)[1..] == a[1..] + b;
      CommandsAppend(a[1..], b);
    }
  }

  /** A line is handled unless it is empty or a lone carriage return; each as often as it comes. */
  lemma {:induction false} CommandsAreLines(lines: seq<string>)
    ensures forall line :: multiset(Commands(lines))[line] == if line == "" || line == "\r" then 0 else multiset(lines)[line]
  {
    if lines != [] {
      CommandsAreLines(lines[1..]);
      assert lines == [lines[0]] + lines[1..];
    }
  }

  /** One more line adds itself at the end, or nothing. */
  lemma OneMoreLine(lines: seq<string>, line: string)
    ensures Commands(lines + [line]) == Commands(lines) + (if line == "" || line == "\r" then [] else [line])
  {
    CommandsAppend(lines, [line]);
    assert [line][1..] == [];
  }

  lemma NextLineFrames()
    ensures Progresses(NextLine) && Stable(NextLine)
  {
    forall s: string, t: string
      ensures StableAt(NextLine, s, t)
    {
      if NextLine(s).Frame? {
        FindInPrefix(s, t, ['\n'], 0);
        var pos := Find(s, ['\n'], 0).value;
        assert (s + t)[..pos] == s[..pos];
      }
    }
  }

  /** All the lines of a text, and what follows the last newline. */
  function Lines(text: string): Framing.Result<string, char>
    decreases |text|
  {
    match Find(text, ['\n'], 0)
    case None => Framing.Result([], text)
    case Some(pos) => Prepend([text[..pos]], Lines(text[pos + 1..]))
  }

  lemma {:induction false} LinesAreDrained(text: string)
    ensures Progresses(NextLine) && Lines(text) == Drain(NextLine, text)
    decreases |text|
  {
    NextLineFrames();
    match Find(text, ['\n'], 0)
    case None =>
    case Some(pos) => LinesAreDrained(text[pos + 1..]);
  }

  // ---- What a line is, without mentioning how lines are found ----

  function Terminated(lines: seq<string>): string {
    if lines == [] then "" else lines[0] + ['\n'] + Terminated(lines[1..])
  }

  ghost predicate IsSplit(text: string, lines: seq<string>, leftover: string) {
    && Terminated(lines) + leftover == text
    && '\n' !in leftover
    && forall i :: 0 <= i < |lines| ==> '\n' !in lines[i]
  }

  lemma NewlineAt(text: string, i: nat)
    requires i < |text|
    ensures MatchAt(text, ['\n'], i) <==> text[i] == '\n'
  {
    assert text[i..i + 1] == [text[i]];
  }

  lemma NoNewline(text: string)
    ensures Find(text, ['\n'], 0).None? <==> '\n' !in text
  {
    forall i: nat | i < |text|
      ensures MatchAt(text, ['\n'], i) <==> text[i] == '\n'
    {
      NewlineAt(text, i);
    }
  }

  lemma FirstNewline(line: string, tail: string)
    requires '\n' !in line
    ensures var text := line + ['\n'] + tail;
      Find(text, ['\n'], 0) == Some(|line|) && text[..|line|] == line && text[|line| + 1..] == tail
  {
    var text := line + ['\n'] + tail;
    forall i: nat | i < |text|
      ensures MatchAt(text, ['\n'], i) <==> text[i] == '\n'
    {
      NewlineAt(text, i);
    }
    FindIs(text, ['\n'], 0, |line|);
  }

  lemma FoundNewline(text: string)
    requires Find(text, ['\n'], 0).Some?
    ensures var pos := Find(text, ['\n'], 0).value;
      text == text[..pos] + ['\n'] + text[pos + 1..] && '\n' !in text[..pos]
  {
    forall i: nat | i < |text|
      ensures MatchAt(text, ['\n'], i) <==> text[i] == '\n'
    {
      NewlineAt(text, i);
    }
  }

  /** The lines found are the newline-terminated lines of the text; the leftover has no newline. */
  lemma {:induction false} LinesSplit(text: string)
    ensures IsSplit(text, Lines(text).items, Lines(text).rest)
    decreases |text|
  {
    if Find(text, ['\n'], 0).None? {
      NoNewline(text);
    } else {
      FoundNewline(text);
      var pos := Find(text, ['\n'], 0).value;
      var tail := text[pos + 1..];
      LinesSplit(tail);
      SplitCons(text[..pos], tail, Lines(tail).items, Lines(tail).rest);
    }
  }

  lemma SplitCons(line: string, tail: string, lines: seq<string>, leftover: string)
    requires IsSplit(tail, lines, leftover) && '\n' !in line
    ensures IsSplit(line + ['\n'] + tail, [line] + lines, leftover)
  {
    assert ([line] + lines)[1..] == lines;
    assert line + ['\n'] + Terminated(lines) + leftover == line + ['\n'] + (Terminated(lines) + leftover);
  }

  /** There is only one way to split a text. */
  lemma {:induction false} SplitIsUnique(text: string, lines: seq<string>, leftover: string)
    requires IsSplit(text, lines, leftover)
    ensures lines == Lines(text).items && leftover == Lines(text).rest
    decreases |lines|
  {
    if lines == [] {
      assert Terminated([]) + leftover == leftover;
      NoNewline(text);
    } else {
      var line, tail := lines[0], Terminated(lines[1..]) + leftover;
      assert text == line + ['\n'] + tail;
      FirstNewline(line, tail);
      SplitIsUnique(tail, lines[1..], leftover);
      assert [line] + lines[1..] == lines;
    }
  }

  // ---- The reader thread ----

  /** The text of the reads that happened before the connection failed. */
  function ReceivedText(results: seq<ReadResult>): string {
    if results == [] then "" else
      match results[0]
      case Data(rx) => CString(rx) + ReceivedText(results[1..])
      case WantRetry => ReceivedText(results[1..])
      case Failed => ""
  }

  function RawText(results: seq<ReadResult>): string {
    if results == [] then "" else
      match results[0]
      case Data(rx) => rx + RawText(results[1..])
      case WantRetry => RawText(results[1..])
      case Failed => ""
  }

  /** The text is what was received exactly when no read carried a NUL. */
  lemma {:induction false} NulFreeTextIff(results: seq<ReadResult>)
    ensures ReceivedText(results) == RawText(results) <==> NUL !in RawText(results)
    ensures NUL !in ReceivedText(results) && |ReceivedText(results)| <= |RawText(results)|
  {
    if results != [] {
      NulFreeTextIff(results[1..]);
      if results[0].Data? {
        var rx, text, raw := results[0].rx, ReceivedText(results[1..]), RawText(results[1..]);
        if NUL !in rx {
          assert rx + text == rx + raw ==> (rx + text)[|rx|..] == (rx + raw)[|rx|..];
        }
      }
    }
  }

  /** A read counts up to its first NUL; nothing counts after a failure. */
  lemma TextOfReads(rx: string, n: nat, results: seq<ReadResult>, later: seq<ReadResult>)
    requires n <= |rx| && NUL !in rx[..n] && (n < |rx| ==> rx[n] == NUL)
    ensures ReceivedText([Data(rx)] + results) == rx[..n] + ReceivedText(results)
    ensures ReceivedText([WantRetry] + results) == ReceivedText(results)
    ensures ReceivedText(results + [Failed] + later) == ReceivedText(results)
  {
    assert ([Data(rx)] + results)[1..] == results && ([WantRetry] + results)[1..] == results;
    UpToNul(rx, n);
    TextBeforeFailure(results, later);
  }

  lemma {:induction false} UpToNul(rx: string, n: nat)
    requires n <= |rx| && NUL !in rx[..n] && (n < |rx| ==> rx[n] == NUL)
    ensures CString(rx) == rx[..n]
  {
    if n > 0 {
      assert rx[0] == rx[..n][0] && rx[1..][..n - 1] == rx[..n][1..];
      UpToNul(rx[1..], n - 1);
      assert [rx[0]] + rx[..n][1..] == rx[..n];
    }
  }

  lemma {:induction false} TextBeforeFailure(results: seq<ReadResult>, later: seq<ReadResult>)
    ensures ReceivedText(results + [Failed] + later) == ReceivedText(results)
  {
    var all := results + [Failed] + later;
    if results == [] {
      assert all[0] == Failed;
    } else {
      assert all[1..] == results[1..] + [Failed] + later;
      TextBeforeFailure(results[1..], later);
    }
  }

  /** One turn of the line loop. */
  lemma LinesTurn(done: seq<string>, text: string)
    requires Find(text, ['\n'], 0).Some?
    ensures var pos := Find(text, ['\n'], 0).value;
      && Prepend(done, Lines(text)) == Prepend(done + [text[..pos]], Lines(text[pos + 1..]))
      && Commands(done + [text[..pos]]) == Commands(done) + (if IsCommand(text[..pos]) then [text[..pos]] else [])
  {
    var pos := Find(text, ['\n'], 0).value;
    PrependTwice(done, [text[..pos]], Lines(text[pos + 1..]));
    CommandsAppend(done, [text[..pos]]);
  }

  lemma LinesDone(done: seq<string>, text: string)
    requires Find(text, ['\n'], 0).None?
    ensures Prepend(done, Lines(text)) == Framing.Result(done, text)
  {
    assert done + [] == done;
  }

  /** Text arriving later adds its commands behind the earlier ones. */
  lemma LinesGrow(text: string, more: string)
    ensures var r := Lines(Lines(text).rest + more);
      && Lines(text + more).rest == r.rest
      && Commands(Lines(text + more).items) == Commands(Lines(text).items) + Commands(r.items)
  {
    NextLineFrames();
    LinesAreDrained(text);
    LinesAreDrained(text + more);
    LinesAreDrained(Lines(text).rest + more);
    DrainSplit(NextLine, text, more);
    CommandsAppend(Lines(text).items, Lines(Lines(text).rest + more).items);
  }

  lemma TextStep(results: seq<ReadResult>, i: nat)
    requires i < |results|
    ensures ReceivedText(results[i..]) == match results[i]
      case Data(rx) => CString(rx) + ReceivedText(results[i + 1..])
      case WantRetry => ReceivedText(results[i + 1..])
      case Failed => ""
  {
    assert results[i..][1..] == results[i + 1..];
  }

  /** The loop body after `rx` arrived: appends its text and hands out every complete line. */
  method TakeText(buffer: string, rx: string) returns (cmdBuffer: string, handled: seq<string>)
    ensures cmdBuffer == Lines(buffer + CString(rx)).rest
    ensures handled == Commands(Lines(buffer + CString(rx)).items)
  {
    cmdBuffer, handled := buffer + CString(rx), [];
    ghost var whole := Lines(cmdBuffer);
    ghost var done: seq<string> := [];
    var pos := Find(cmdBuffer, ['\n'], 0);
    while pos.Some?
      invariant pos == Find(cmdBuffer, ['\n'], 0)
      invariant whole == Prepend(done, Lines(cmdBuffer))
      invariant handled == Commands(done)
      decreases |cmdBuffer|
    {
      var line := cmdBuffer[..pos.value];
      LinesTurn(done, cmdBuffer);
      cmdBuffer := cmdBuffer[pos.value + 1..];
      if line != "" && line != "\r" {
        handled := handled + [line];
      }
      done := done + [line];
      pos := Find(cmdBuffer, ['\n'], 0);
    }
    LinesDone(done, cmdBuffer);
  }

  /**
   The reader thread on any series of reads: the commands handled are exactly the
   newline-terminated lines of the whole text, in order, without empty lines and lone
   carriage returns; what it still holds has no newline.
   */
  method ReaderThread(results: seq<ReadResult>) returns (handled: seq<string>, cmdBuffer: string, connected: bool)
    ensures exists lines :: IsSplit(ReceivedText(results), lines, cmdBuffer) && handled == Commands(lines)
    ensures forall line :: line in handled ==> line != "" && line != "\r" && '\n' !in line
    ensures connected == (Failed !in results)
  {
    handled, cmdBuffer, connected := [], "", true;
    ghost var seen, left := "", ReceivedText(results);
    var i := 0;
    while connected && i < |results|
      invariant 0 <= i <= |results|
      invariant connected ==> left == ReceivedText(results[i..])
      invariant connected == (forall j :: 0 <= j < i ==> !results[j].Failed?)
      invariant !connected ==> left == ""
      invariant ReceivedText(results) == seen + left
      invariant cmdBuffer == Lines(seen).rest && handled == Commands(Lines(seen).items)
      decreases |results| - i
    {
      TextStep(results, i);
      match results[i] {
        case Data(rx) =>
          var more: seq<string>;
          cmdBuffer, more := TakeText(cmdBuffer, rx);
          handled := handled + more;
          LinesGrow(seen, CString(rx));
          Reassociate(seen, CString(rx), ReceivedText(results[i + 1..]));
          seen, left := seen + CString(rx), ReceivedText(results[i + 1..]);
        case WantRetry =>
        case Failed =>
          connected, left := false, "";
      }
      i := i + 1;
    }
    if connected { assert results[i..] == []; }
    assert seen + "" == seen;
    LinesSplit(seen);
    HandledAreLines(Lines(seen).items);
  }

  lemma {:induction false} HandledAreLines(lines: seq<string>)
    ensures forall line :: line in Commands(lines) ==> line in lines && line != "" && line != "\r"
  {
    if lines != [] {
      HandledAreLines(lines[1..]);
    }
  }
}
