/** ONVIF metadata: complete XML elements cut out of a stream of packets. */
module MetadataParser {
  import opened Wrappers
  import opened Search
  import opened Framing

  const OPEN_TAG := "<tt:MetadataStream"
  const CLOSE_TAG := "</tt:MetadataStream>"
  const XML_DECLARATION := "<?xml version=\"1.0\" encoding=\"UTF-8\"?>"
  const MAX_BUFFER_SIZE := 524288

  function NextElement(s: string): Cut<string> {
    match Find(s, OPEN_TAG, 0)
    case None => Wait
    case Some(pos) =>
      match Find(s, CLOSE_TAG, pos)
      case None => Wait
      case Some(end) => Frame(s[pos..end + |CLOSE_TAG|], end + |CLOSE_TAG|)
  }

  lemma ElementExtends(s: string, t: string)
    ensures StableAt(NextElement, s, t)
  {
    if NextElement(s).Frame? {
      var pos := Find(s, OPEN_TAG, 0).value;
      var end := Find(s, CLOSE_TAG, pos).value;
      FindInPrefix(s, t, OPEN_TAG, 0);
      FindInPrefix(s, t, CLOSE_TAG, pos);
      assert (s + t)[pos..end + |CLOSE_TAG|] == s[pos..end + |CLOSE_TAG|];
    }
  }

  lemma NextElementFrames()
    ensures Progresses(NextElement) && Stable(NextElement)
  {
    forall s: string, t: string
      ensures StableAt(NextElement, s, t)
    {
      ElementExtends(s, t);
    }
  }

  /** One greedy pass over a text: its elements, and what follows the last of them. */
  function Scan(text: string): Framing.Result<string, char>
    decreases |text|
  {
    match NextElement(text)
    case Wait => Framing.Result([], text)
    case Frame(element, used) => Prepend([element], Scan(text[used..]))
  }

  lemma {:induction false} ScanIsDrain(text: string)
    ensures Progresses(NextElement) && Scan(text) == Drain(NextElement, text)
    decreases |text|
  {
    NextElementFrames();
    match NextElement(text)
    case Wait =>
    case Frame(_, used) => ScanIsDrain(text[used..]);
  }

  /** Scanning in two parts. */
  lemma ScanSplit(s: string, t: string)
    ensures Scan(s + t) == Prepend(Scan(s).items, Scan(Scan(s).rest + t))
  {
    NextElementFrames();
    ScanIsDrain(s);
    ScanIsDrain(s + t);
    ScanIsDrain(Scan(s).rest + t);
    DrainSplit(NextElement, s, t);
  }

  /** An element starts with the open tag and ends with the first close tag in it. */
  ghost predicate IsElement(e: string) {
    && OPEN_TAG <= e
    && |CLOSE_TAG| <= |e| && Find(e, CLOSE_TAG, 0) == Some(|e| - |CLOSE_TAG|)
  }

  lemma NextIsElement(s: string)
    requires NextElement(s).Frame?
    ensures IsElement(NextElement(s).item)
  {
    hide Find;
    var pos := Find(s, OPEN_TAG, 0).value;
    var end := Find(s, CLOSE_TAG, pos).value;
    var e := s[pos..end + |CLOSE_TAG|];
    forall j: nat | j <= end - pos
      ensures MatchAt(e, CLOSE_TAG, j) == MatchAt(s, CLOSE_TAG, pos + j)
    {
      MatchInSlice(s, CLOSE_TAG, pos, end + |CLOSE_TAG|, j);
    }
    FindIs(e, CLOSE_TAG, 0, end - pos);
    TagsDisjoint(s, pos, end);
  }

  /** The close tag cannot begin inside the open tag. */
  lemma TagsDisjoint(s: string, pos: nat, end: nat)
    requires MatchAt(s, OPEN_TAG, pos) && MatchAt(s, CLOSE_TAG, end) && pos <= end
    ensures pos + |OPEN_TAG| <= end
    ensures s[pos..end + |CLOSE_TAG|][..|OPEN_TAG|] == OPEN_TAG
  {
    var open, close := s[pos..pos + |OPEN_TAG|], s[end..end + |CLOSE_TAG|];
    assert forall i :: 0 <= i < |OPEN_TAG| ==> s[pos + i] == open[i];
    assert forall i :: 0 <= i < |CLOSE_TAG| ==> s[end + i] == close[i];
    assert s[end] == '<' && s[end + 1] == '/';
    assert s[pos + 1] == OPEN_TAG[1];
    assert forall i :: 0 < i < |OPEN_TAG| ==> OPEN_TAG[i] != '<';
    assert pos + |OPEN_TAG| <= end;
    assert s[pos..end + |CLOSE_TAG|][..|OPEN_TAG|] == open;
  }

  // ---- What the elements of a text are, without mentioning how they are found ----

  /** A stretch of text, and the element behind it. */
  datatype Piece = Piece(skipped: string, element: string)

  function Elements(pieces: seq<Piece>): (elements: seq<string>)
    ensures |elements| == |pieces| && forall i :: 0 <= i < |pieces| ==> elements[i] == pieces[i].element
  {
    seq(|pieces|, i requires 0 <= i < |pieces| => pieces[i].element)
  }

  function Spelled(pieces: seq<Piece>): string {
    if pieces == [] then "" else pieces[0].skipped + pieces[0].element + Spelled(pieces[1..])
  }

  ghost predicate NoTag(s: string, tag: string) {
    forall i: nat :: !MatchAt(s, tag, i)
  }

  /** No open tag that a close tag follows. */
  ghost predicate NoElementIn(s: string) {
    forall i: nat, j: nat :: i <= j && MatchAt(s, OPEN_TAG, i) ==> !MatchAt(s, CLOSE_TAG, j)
  }

  /** The text is stretches without an open tag, each with an element behind it, and a leftover without elements. */
  ghost predicate IsSplit(text: string, pieces: seq<Piece>, leftover: string) {
    && text == Spelled(pieces) + leftover
    && (forall p :: p in pieces ==> NoTag(p.skipped, OPEN_TAG) && IsElement(p.element))
    && NoElementIn(leftover)
  }

  lemma WaitsIff(s: string)
    ensures NextElement(s).Wait? <==> NoElementIn(s)
  {
    hide MatchAt;
    match Find(s, OPEN_TAG, 0)
    case None =>
    case Some(pos) =>
      match Find(s, CLOSE_TAG, pos)
      case None =>
      case Some(end) => assert pos <= end && MatchAt(s, OPEN_TAG, pos);
  }

  /** The next element, with what is skipped in front of it. */
  lemma NextPiece(s: string)
    requires NextElement(s).Frame?
    ensures var n := NextElement(s); 0 < n.used <= |s| && |n.item| <= n.used
    ensures var n := NextElement(s); var skipped := s[..n.used - |n.item|];
      && s == skipped + n.item + s[n.used..] && NoTag(skipped, OPEN_TAG) && IsElement(n.item)
  {
    hide IsElement, NoTag;
    NextIsElement(s);
    var pos := Find(s, OPEN_TAG, 0).value;
    NothingBefore(s, OPEN_TAG);
    hide Find;
    ThreeSlices(s, pos, NextElement(s).used);
  }

  lemma ThreeSlices<T>(s: seq<T>, i: nat, j: nat)
    requires i <= j <= |s|
    ensures s == s[..i] + s[i..j] + s[j..]
  {
  }

  lemma NothingBefore(s: string, tag: string)
    requires Find(s, tag, 0).Some?
    ensures NoTag(s[..Find(s, tag, 0).value], tag) || tag == ""
  {
    var pos := Find(s, tag, 0).value;
    forall i: nat | tag != ""
      ensures !MatchAt(s[..pos], tag, i)
    {
      if i + |tag| <= pos {
        assert s[..pos][i..i + |tag|] == s[i..i + |tag|];
        assert !MatchAt(s, tag, i);
      }
    }
  }

  /** An open tag cannot begin before an element and end in it. */
  lemma NoStraddling(skipped: string, rest: string, i: nat)
    requires OPEN_TAG <= rest && i < |skipped| < i + |OPEN_TAG|
    ensures !MatchAt(skipped + rest, OPEN_TAG, i)
  {
    var s, k := skipped + rest, |skipped| - i;
    if i + |OPEN_TAG| <= |s| {
      assert s[|skipped|] == rest[0] == '<';
      assert s[i..i + |OPEN_TAG|][k] == s[|skipped|];
      assert forall k :: 0 < k < |OPEN_TAG| ==> OPEN_TAG[k] != '<';
    }
  }

  /** A stretch without an open tag and an element behind it are what the search finds. */
  lemma PieceIsNext(skipped: string, element: string, rest: string)
    requires NoTag(skipped, OPEN_TAG) && IsElement(element)
    ensures NextElement(skipped + element + rest) == Frame(element, |skipped| + |element|)
  {
    hide IsElement, NoTag, Find;
    ElementTags(element);
    var s := skipped + element + rest;
    OpenTagBehind(skipped, element, rest);
    CloseTagAtEnd(skipped, element, rest);
    MiddleSlice(skipped, element, rest);
  }

  lemma MiddleSlice<T>(a: seq<T>, b: seq<T>, c: seq<T>)
    ensures (a + b + c)[|a|..|a| + |b|] == b
  {
  }

  lemma CloseTagAtEnd(skipped: string, element: string, rest: string)
    requires |CLOSE_TAG| <= |element| && MatchAt(element, CLOSE_TAG, |element| - |CLOSE_TAG|)
    requires forall j: nat :: j < |element| - |CLOSE_TAG| ==> !MatchAt(element, CLOSE_TAG, j)
    ensures Find(skipped + element + rest, CLOSE_TAG, |skipped|) == Some(|skipped| + |element| - |CLOSE_TAG|)
  {
    var s, pos, end := skipped + element + rest, |skipped|, |skipped| + |element| - |CLOSE_TAG|;
    MiddleSlice(skipped, element, rest);
    forall j: nat | pos <= j <= end
      ensures MatchAt(s, CLOSE_TAG, j) == MatchAt(element, CLOSE_TAG, j - pos)
    {
      MatchInSlice(s, CLOSE_TAG, pos, pos + |element|, j - pos);
    }
    FindIs(s, CLOSE_TAG, pos, end);
  }

  lemma ElementTags(e: string)
    requires IsElement(e)
    ensures OPEN_TAG <= e && |CLOSE_TAG| <= |e| && MatchAt(e, CLOSE_TAG, |e| - |CLOSE_TAG|)
    ensures forall j: nat :: j < |e| - |CLOSE_TAG| ==> !MatchAt(e, CLOSE_TAG, j)
  {
  }

  lemma OpenTagBehind(skipped: string, element: string, rest: string)
    requires NoTag(skipped, OPEN_TAG) && OPEN_TAG <= element
    ensures Find(skipped + element + rest, OPEN_TAG, 0) == Some(|skipped|)
  {
    var s := skipped + element + rest;
    assert s == skipped + (element + rest);
    assert s[|skipped|..|skipped| + |OPEN_TAG|] == element[..|OPEN_TAG|] == OPEN_TAG;
    forall i: nat | i < |skipped|
      ensures !MatchAt(s, OPEN_TAG, i)
    {
      if i + |OPEN_TAG| <= |skipped| {
        assert s[i..i + |OPEN_TAG|] == skipped[i..i + |OPEN_TAG|];
        assert !MatchAt(skipped, OPEN_TAG, i);
      } else {
        NoStraddling(skipped, element + rest, i);
      }
    }
    FindIs(s, OPEN_TAG, 0, |skipped|);
  }

  /**
   The elements of one pass, and what it leaves, split the text: whatever is not skipped for want of
   an open tag is an element or the leftover, and the leftover holds no complete element.
   */
  lemma {:induction false} ScannedAreElements(text: string) returns (pieces: seq<Piece>)
    ensures IsSplit(text, pieces, Scan(text).rest) && Elements(pieces) == Scan(text).items
    ensures NextElement(Scan(text).rest).Wait?
    ensures forall e :: e in Scan(text).items ==> IsElement(e)
    decreases |text|
  {
    hide IsElement, NoTag, NoElementIn, IsSplit, NextElement;
    WaitsIff(text);
    match NextElement(text) {
      case Wait =>
        pieces := [];
        SplitNothing(text);
      case Frame(e, used) =>
        NextPiece(text);
        var later := ScannedAreElements(text[used..]);
        var first := Piece(text[..used - |e|], e);
        pieces := [first] + later;
        SplitCons(first, text[used..], later, Scan(text).rest);
        assert Elements(pieces) == [e] + Elements(later);
    }
    SplitElements(text, pieces, Scan(text).rest);
  }

  lemma SplitNothing(text: string)
    requires NoElementIn(text)
    ensures IsSplit(text, [], text)
  {
    assert "" + text == text;
  }

  lemma SplitElements(text: string, pieces: seq<Piece>, leftover: string)
    requires IsSplit(text, pieces, leftover)
    ensures forall e :: e in Elements(pieces) ==> IsElement(e)
  {
    hide IsElement;
    assert forall i :: 0 <= i < |pieces| ==> pieces[i] in pieces;
  }

  lemma SplitCons(first: Piece, tail: string, later: seq<Piece>, leftover: string)
    requires NoTag(first.skipped, OPEN_TAG) && IsElement(first.element) && IsSplit(tail, later, leftover)
    ensures IsSplit(first.skipped + first.element + tail, [first] + later, leftover)
  {
    hide IsElement, NoTag, NoElementIn;
    assert ([first] + later)[1..] == later;
    assert first.skipped + first.element + Spelled(later) + leftover == first.skipped + first.element + (Spelled(later) + leftover);
  }

  /** Any split of a text is the one found. */
  lemma {:induction false} SplitIsScanned(text: string, pieces: seq<Piece>, leftover: string)
    requires IsSplit(text, pieces, leftover)
    ensures Elements(pieces) == Scan(text).items && leftover == Scan(text).rest
    decreases |pieces|
  {
    hide IsElement, NoTag, NoElementIn, NextElement, IsSplit;
    if pieces == [] {
      SplitOfNothing(text, leftover);
      WaitsIff(text);
    } else {
      var first, tail := pieces[0], Spelled(pieces[1..]) + leftover;
      SplitTail(text, pieces, leftover);
      PieceIsNext(first.skipped, first.element, tail);
      SplitIsScanned(tail, pieces[1..], leftover);
      assert Elements(pieces) == [first.element] + Elements(pieces[1..]);
    }
  }

  lemma SplitOfNothing(text: string, leftover: string)
    requires IsSplit(text, [], leftover)
    ensures text == leftover && NoElementIn(text)
  {
    assert "" + leftover == leftover;
  }

  lemma SplitTail(text: string, pieces: seq<Piece>, leftover: string)
    requires IsSplit(text, pieces, leftover) && pieces != []
    ensures var first, tail := pieces[0], Spelled(pieces[1..]) + leftover;
      && text == first.skipped + first.element + tail && text[|first.skipped| + |first.element|..] == tail
      && NoTag(first.skipped, OPEN_TAG) && IsElement(first.element) && IsSplit(tail, pieces[1..], leftover)
  {
    hide IsElement, NoTag, NoElementIn;
    assert pieces[0] in pieces && forall p :: p in pieces[1..] ==> p in pieces;
    var front := pieces[0].skipped + pieces[0].element;
    assert front + Spelled(pieces[1..]) + leftover == front + (Spelled(pieces[1..]) + leftover);
  }

  /** There is only one way to split a text into elements. */
  lemma SplitIsUnique(text: string, a: seq<Piece>, u: string, b: seq<Piece>, v: string)
    requires IsSplit(text, a, u) && IsSplit(text, b, v)
    ensures Elements(a) == Elements(b) && u == v
  {
    hide IsSplit;
    SplitIsScanned(text, a, u);
    SplitIsScanned(text, b, v);
  }

  // ---- Packets and results ----

  type Pts = int
  datatype Stream = Stream(xml: string, pts: Pts)
  datatype MetadataResult<O> = MetadataResult(pts: Pts, objects: seq<O>)
  datatype Packet = Packet(data: string, pts: Pts)

  function Stamp(elements: seq<string>, pts: Pts): seq<Stream> {
    if elements == [] then [] else [Stream(XML_DECLARATION + elements[0], pts)] + Stamp(elements[1..], pts)
  }

  /** The streams that parse and hold objects, in order. */
  function ResultsOf<O>(streams: seq<Stream>, parse: string -> Option<seq<O>>): seq<MetadataResult<O>> {
    if streams == [] then []
    else
      (match parse(streams[0].xml)
       case Some(objects) => if objects == [] then [] else [MetadataResult(streams[0].pts, objects)]
       case None => []) + ResultsOf(streams[1..], parse)
  }

  function Cleanup(buffer: string): string {
    if |buffer| > MAX_BUFFER_SIZE then "" else buffer
  }

  lemma {:induction false} StampAppend(a: seq<string>, b: seq<string>, pts: Pts)
    ensures Stamp(a + b, pts) == Stamp(a, pts) + Stamp(b, pts)
  {
    if a == [] {
      assert a + b == b;
    } else {
      assert (a + b)[1..] == a[1..] + b;
      StampAppend(a[1..], b, pts);
    }
  }

  lemma {:induction false} ResultsAppend<O>(a: seq<Stream>, b: seq<Stream>, parse: string -> Option<seq<O>>)
    ensures ResultsOf(a + b, parse) == ResultsOf(a, parse) + ResultsOf(b, parse)
  {
    if a == [] {
      assert a + b == b;
    } else {
      assert (a + b)[1..] == a[1..] + b;
      ResultsAppend(a[1..], b, parse);
    }
  }

  lemma ScanTurn(done: seq<string>, text: string, pts: Pts)
    requires NextElement(text).Frame?
    ensures var n := NextElement(text);
      && Prepend(done, Scan(text)) == Prepend(done + [n.item], Scan(text[n.used..]))
      && Stamp(done + [n.item], pts) == Stamp(done, pts) + [Stream(XML_DECLARATION + n.item, pts)]
  {
    var n := NextElement(text);
    PrependTwice(done, [n.item], Scan(text[n.used..]));
    StampAppend(done, [n.item], pts);
    assert [n.item][1..] == [];
  }

  // ---- Whole runs ----

  datatype Parsed = Parsed(streams: seq<Stream>, buffer: string)

  /** What a parser has cut out, and what it holds, after a run of packets. */
  function Run(packets: seq<Packet>): Parsed {
    if packets == [] then Parsed([], "")
    else
      var before, last := Run(packets[..|packets| - 1]), packets[|packets| - 1];
      var r := Scan(before.buffer + last.data);
      Parsed(before.streams + Stamp(r.items, last.pts), Cleanup(r.rest))
  }

  function Text(packets: seq<Packet>): string {
    if packets == [] then "" else Text(packets[..|packets| - 1]) + packets[|packets| - 1].data
  }

  function Earlier(packets: seq<Packet>): seq<Packet>
    requires packets != []
  {
    packets[..|packets| - 1]
  }

  /** At no point of the run does the leftover of the whole text so far pass 512 KiB. */
  predicate NeverTooLong(packets: seq<Packet>) {
    |Scan(Text(packets)).rest| <= MAX_BUFFER_SIZE && (packets == [] || NeverTooLong(Earlier(packets)))
  }

  /** The elements found so far are those of one pass over the text, and so is the leftover. */
  ghost predicate MatchesBatch(packets: seq<Packet>) {
    var batch := Scan(Text(packets));
    && Run(packets).buffer == batch.rest
    && |Run(packets).streams| == |batch.items|
    && forall j :: 0 <= j < |batch.items| ==> Run(packets).streams[j].xml == XML_DECLARATION + batch.items[j]
  }

  ghost predicate AlwaysMatchesBatch(packets: seq<Packet>) {
    MatchesBatch(packets) && (packets == [] || AlwaysMatchesBatch(Earlier(packets)))
  }

  lemma {:induction false} StampAt(elements: seq<string>, pts: Pts)
    ensures |Stamp(elements, pts)| == |elements|
    ensures forall j :: 0 <= j < |elements| ==> Stamp(elements, pts)[j] == Stream(XML_DECLARATION + elements[j], pts)
  {
    if elements != [] {
      StampAt(elements[1..], pts);
    }
  }

  lemma ExtendBatch(packets: seq<Packet>)
    requires packets != [] && MatchesBatch(Earlier(packets))
    requires |Scan(Text(packets)).rest| <= MAX_BUFFER_SIZE
    ensures MatchesBatch(packets)
  {
    var before, last := Earlier(packets), packets[|packets| - 1];
    ScanSplit(Text(before), last.data);
    StampAt(Scan(Run(before).buffer + last.data).items, last.pts);
  }

  /**
   Incremental parsing equals one pass over the whole text, at every point of a run, exactly
   when the leftover never passes 512 KiB.
   */
  lemma {:induction false} IncrementalIsBatchIff(packets: seq<Packet>)
    ensures AlwaysMatchesBatch(packets) <==> NeverTooLong(packets)
    decreases |packets|
  {
    if packets == [] {
      assert NextElement("") == Wait;
    } else {
      IncrementalIsBatchIff(Earlier(packets));
      if NeverTooLong(packets) {
        ExtendBatch(packets);
      }
    }
  }

  /** The close tag is found at most where a text goes on behind the open tag and filler. */
  lemma CloseTagBehind(filler: string, rest: string, j: nat)
    requires '<' !in filler && j < |OPEN_TAG + filler|
    ensures !MatchAt(OPEN_TAG + filler + rest, CLOSE_TAG, j)
  {
    var s := OPEN_TAG + filler + rest;
    if j + |CLOSE_TAG| <= |s| {
      var found := s[j..j + |CLOSE_TAG|];
      assert found[0] == s[j] && found[1] == s[j + 1] && CLOSE_TAG[0] == '<' && CLOSE_TAG[1] == '/';
      if j == 0 {
        assert s[1] == OPEN_TAG[1] == 't';
      } else if j < |OPEN_TAG| {
        assert s[j] == OPEN_TAG[j] != '<';
      } else {
        assert s[j] == filler[j - |OPEN_TAG|];
      }
    }
  }

  lemma OpenElementWaits(filler: string)
    requires '<' !in filler
    ensures NextElement(OPEN_TAG + filler) == Wait
  {
    var s := OPEN_TAG + filler;
    FindIs(s, OPEN_TAG, 0, 0);
    assert s + "" == s;
    forall j: nat | j < |s|
      ensures !MatchAt(s, CLOSE_TAG, j)
    {
      CloseTagBehind(filler, "", j);
    }
  }

  lemma ClosedElementIsFound(filler: string)
    requires '<' !in filler
    ensures var s := OPEN_TAG + filler + CLOSE_TAG; NextElement(s) == Frame(s, |s|)
  {
    var s, n := OPEN_TAG + filler + CLOSE_TAG, |OPEN_TAG + filler|;
    assert s[..|OPEN_TAG|] == s[0..|OPEN_TAG|] == OPEN_TAG;
    FindIs(s, OPEN_TAG, 0, 0);
    forall j: nat | j < n
      ensures !MatchAt(s, CLOSE_TAG, j)
    {
      CloseTagBehind(filler, CLOSE_TAG, j);
    }
    assert s[n..n + |CLOSE_TAG|] == CLOSE_TAG;
    FindIs(s, CLOSE_TAG, 0, n);
    assert s[0..|s|] == s;
  }

  /**
   An element too long for the buffer, in two packets: one pass over the text finds it, the parser
   has dropped its first part and finds nothing.
   */
  lemma LongElementIsLost(filler: string, a: Pts, b: Pts)
    requires '<' !in filler && |OPEN_TAG + filler| > MAX_BUFFER_SIZE
    ensures var packets := [Packet(OPEN_TAG + filler, a), Packet(CLOSE_TAG, b)];
      && Scan(Text(packets)).items == [OPEN_TAG + filler + CLOSE_TAG]
      && Run(packets).streams == [] && !AlwaysMatchesBatch(packets)
  {
    hide NextElement;
    var first, second := Packet(OPEN_TAG + filler, a), Packet(CLOSE_TAG, b);
    var packets := [first, second];
    assert Earlier(packets) == [first] && Earlier([first]) == [];
    OpenElementWaits(filler);
    ClosedElementIsFound(filler);
    CloseTagWaits();
    assert "" + first.data == first.data && "" + CLOSE_TAG == CLOSE_TAG;
    assert Scan(first.data) == Framing.Result([], first.data);
    assert Run([]) == Parsed([], "") && Text([]) == "";
    assert Run([first]) == Parsed([], "") && Text([first]) == first.data;
    var s := first.data + CLOSE_TAG;
    assert s[|s|..] == "";
    EmptyTextWaits();
    assert Scan(s) == Prepend([s], Scan(""));
  }

  lemma CloseTagWaits()
    ensures NextElement(CLOSE_TAG) == Wait
  {
    forall j: nat | j + |OPEN_TAG| <= |CLOSE_TAG|
      ensures !MatchAt(CLOSE_TAG, OPEN_TAG, j)
    {
      var found := CLOSE_TAG[j..j + |OPEN_TAG|];
      assert found[0] == CLOSE_TAG[j] && found[1] == CLOSE_TAG[j + 1];
    }
  }

  lemma EmptyTextWaits()
    ensures NextElement("") == Wait && Scan("") == Framing.Result([], "")
  {
  }

  lemma LongElementExample()
    ensures var filler := seq(MAX_BUFFER_SIZE, _ => 'x');
      var packets := [Packet(OPEN_TAG + filler, 0), Packet(CLOSE_TAG, 1)];
      Scan(Text(packets)).items != [] && Run(packets).streams == []
  {
    LongElementIsLost(seq(MAX_BUFFER_SIZE, _ => 'x'), 0, 1);
  }

  /**
   The streams of a run as one would list them by hand: after each packet, the elements that a
   pass over the text so far finds and the pass before this packet did not, with its pts.
   */
  function Expected(packets: seq<Packet>): seq<Stream> {
    if packets == [] then []
    else
      var found, known := Scan(Text(packets)).items, Scan(Text(Earlier(packets))).items;
      Expected(Earlier(packets)) +
      Stamp(if |known| <= |found| then found[|known|..] else [], packets[|packets| - 1].pts)
  }

  /** Each element carries the pts of the packet that completed it. */
  lemma {:induction false} PtsOfCompletingPacket(packets: seq<Packet>)
    requires NeverTooLong(packets)
    ensures Run(packets).streams == Expected(packets)
    ensures packets != [] ==> Scan(Text(Earlier(packets))).items <= Scan(Text(packets)).items
    decreases |packets|
  {
    if packets != [] {
      var before := Earlier(packets);
      IncrementalIsBatchIff(before);
      ScanSplit(Text(before), packets[|packets| - 1].data);
      PtsOfCompletingPacket(before);
    }
  }

  /** How many elements one pass over the first `k` packets finds. */
  function Found(packets: seq<Packet>, k: nat): nat
    requires k <= |packets|
  {
    |Scan(Text(packets[..k])).items|
  }

  /** Packet `k - 1` completes element `j`: a pass over the text finds it from then on, and not before. */
  ghost predicate Completes(packets: seq<Packet>, k: nat, j: nat) {
    0 < k <= |packets| && Found(packets, k - 1) <= j < Found(packets, k)
  }

  /** Element `j` carries the pts of the packet that completed it. */
  lemma {:induction false} PtsOfElement(packets: seq<Packet>, j: nat) returns (k: nat)
    requires NeverTooLong(packets) && j < |Run(packets).streams|
    ensures Completes(packets, k, j) && Run(packets).streams[j].pts == packets[k - 1].pts
    decreases |packets|
  {
    hide Scan, NeverTooLong;
    var before, n := Earlier(packets), |packets|;
    assert packets[..n] == packets && packets[..n - 1] == before;
    SplitRun(packets);
    if j < |Run(before).streams| {
      k := PtsOfElement(before, j);
      assert before[..k] == packets[..k] && before[..k - 1] == packets[..k - 1];
    } else {
      k := n;
    }
  }

  lemma SplitRun(packets: seq<Packet>)
    requires packets != [] && NeverTooLong(packets)
    ensures NeverTooLong(Earlier(packets))
    ensures var a, b, last := Run(Earlier(packets)).streams, Run(packets).streams, packets[|packets| - 1];
      && a <= b && |a| == |Scan(Text(Earlier(packets))).items| && |b| == |Scan(Text(packets)).items|
      && forall j :: |a| <= j < |b| ==> b[j].pts == last.pts
  {
    var before, last := Earlier(packets), packets[|packets| - 1];
    IncrementalIsBatchIff(packets);
    StampAt(Scan(Run(before).buffer + last.data).items, last.pts);
  }

  /** The streams and the leftover of a run are those of the split of all the text. */
  lemma RunSplitsText(packets: seq<Packet>) returns (pieces: seq<Piece>)
    requires NeverTooLong(packets)
    ensures IsSplit(Text(packets), pieces, Run(packets).buffer) && |Run(packets).streams| == |pieces|
    ensures forall j :: 0 <= j < |pieces| ==> Run(packets).streams[j].xml == XML_DECLARATION + pieces[j].element
  {
    hide IsSplit, Scan;
    IncrementalIsBatchIff(packets);
    pieces := ScannedAreElements(Text(packets));
  }

  /** A stream yields one result with its pts if it parses and holds objects, and none otherwise; in order. */
  lemma ResultOfStream<O>(a: seq<Stream>, s: Stream, parse: string -> Option<seq<O>>)
    ensures var before, after := ResultsOf(a, parse), ResultsOf(a + [s], parse);
      if parse(s.xml).Some? && parse(s.xml).value != []
      then |after| == |before| + 1 && after[..|before|] == before
        && after[|before|].pts == s.pts && after[|before|].objects == parse(s.xml).value
      else after == before
    ensures ResultsOf([], parse) == []
  {
    ResultsAppend(a, [s], parse);
    assert [s][1..] == [];
  }

  // ---- The parser ----

  lemma RunWaits(packets: seq<Packet>)
    ensures NextElement(Run(packets).buffer).Wait?
  {
    assert NextElement("") == Wait;
    if packets != [] {
      var _ := ScannedAreElements(Run(Earlier(packets)).buffer + packets[|packets| - 1].data);
    }
  }

  lemma RunGrows(packets: seq<Packet>, packet: Packet)
    ensures var r, grown := Scan(Run(packets).buffer + packet.data), Run(packets + [packet]);
      && grown.streams == Run(packets).streams + Stamp(r.items, packet.pts) && grown.buffer == Cleanup(r.rest)
      && (packet.data == "" ==> grown == Run(packets))
  {
    assert (packets + [packet])[..|packets|] == packets;
    RunWaits(packets);
    assert Run(packets).buffer + "" == Run(packets).buffer;
    assert Run(packets).streams + [] == Run(packets).streams;
  }

  class Parser<O> {
    const parse: string -> Option<seq<O>>  // the XML library: None if the document does not parse
    var xmlBuffer: string
    var completedStreams: seq<Stream>
    var results: seq<MetadataResult<O>>
    ghost var packets: seq<Packet>            // all packets so far
    ghost var taken: seq<MetadataResult<O>>   // results already handed out

    /** Results handed out and results waiting are those of all streams of the run, in order. */
    ghost predicate Valid()
      reads this
    {
      && completedStreams == []
      && xmlBuffer == Run(packets).buffer
      && taken + results == ResultsOf(Run(packets).streams, parse)
    }

    constructor (parse: string -> Option<seq<O>>)
      ensures Valid() && this.parse == parse && packets == [] && taken == []
    {
      this.parse := parse;
      xmlBuffer, completedStreams, results, packets, taken := "", [], [], [], [];
    }

    method ProcessPacket(packet: Packet)
      requires Valid()
      modifies this
      ensures Valid() && packets == old(packets) + [packet] && taken == old(taken)
    {
      hide Scan, Stamp, Run, ResultsOf, NextElement, IsSplit;
      RunGrows(packets, packet);
      packets := packets + [packet];
      if packet.data == "" {
        assert xmlBuffer + "" == xmlBuffer;
        return;
      }
      xmlBuffer := xmlBuffer + packet.data;
      ghost var more := Stamp(Scan(xmlBuffer).items, packet.pts);
      ProcessBuffer(packet.pts);
      ResultsAppend(Run(old(packets)).streams, more, parse);
      assert taken + (old(results) + ResultsOf(more, parse)) == (taken + old(results)) + ResultsOf(more, parse);
    }

    method ProcessBuffer(pts: Pts)
      requires completedStreams == []
      modifies `xmlBuffer, `completedStreams, `results
      ensures completedStreams == []
      ensures var r := Scan(old(xmlBuffer));
        xmlBuffer == Cleanup(r.rest) && results == old(results) + ResultsOf(Stamp(r.items, pts), parse)
      ensures xmlBuffer == var rest := Scan(old(xmlBuffer)).rest; if |rest| > 524288 then "" else rest
    {
      CutElements(pts);
      ProcessCompletedStreams();
      if |xmlBuffer| > MAX_BUFFER_SIZE {
        xmlBuffer := "";
      }
    }

    /** The search loop of `processBuffer`. */
    method CutElements(pts: Pts)
      requires completedStreams == []
      modifies `xmlBuffer, `completedStreams
      ensures xmlBuffer == Scan(old(xmlBuffer)).rest
      ensures completedStreams == Stamp(Scan(old(xmlBuffer)).items, pts)
      ensures exists pieces :: IsSplit(old(xmlBuffer), pieces, xmlBuffer) && completedStreams == Stamp(Elements(pieces), pts)
    {
      hide IsSplit, NextElement;
      ghost var pieces := ScannedAreElements(xmlBuffer);
      ghost var whole := Scan(xmlBuffer);
      ghost var done: seq<string> := [];
      var more := true;
      while more
        invariant whole == Prepend(done, Scan(xmlBuffer))
        invariant completedStreams == Stamp(done, pts)
        invariant !more ==> NextElement(xmlBuffer) == Wait
        decreases |xmlBuffer|, more
      {
        ghost var before := xmlBuffer;
        more := CutElement(pts);
        if more {
          ScanTurn(done, before, pts);
          done := done + [NextElement(before).item];
        }
      }
      assert done + [] == done;
    }

    /** One turn of the loop; `more` is false where the source breaks out to wait for input. */
    method CutElement(pts: Pts) returns (more: bool)
      modifies `xmlBuffer, `completedStreams
      ensures more <==> NextElement(old(xmlBuffer)).Frame?
      ensures more ==> |xmlBuffer| < |old(xmlBuffer)| && NextElement(old(xmlBuffer)).used <= |old(xmlBuffer)|
      ensures more ==> xmlBuffer == old(xmlBuffer)[NextElement(old(xmlBuffer)).used..]
      ensures more ==> completedStreams == old(completedStreams) + [Stream(XML_DECLARATION + NextElement(old(xmlBuffer)).item, pts)]
      ensures !more ==> xmlBuffer == old(xmlBuffer) && completedStreams == old(completedStreams)
    {
      var pos := Find(xmlBuffer, OPEN_TAG, 0);
      if pos.None? { return false; }
      var end := Find(xmlBuffer, CLOSE_TAG, pos.value);
      if end.None? { return false; }
      var elementEnd := end.value + |CLOSE_TAG|;
      var element := xmlBuffer[pos.value..elementEnd];
      completedStreams := completedStreams + [Stream(XML_DECLARATION + element, pts)];
      xmlBuffer := xmlBuffer[elementEnd..];
      return true;
    }

    method ProcessCompletedStreams()
      modifies `completedStreams, `results
      ensures completedStreams == []
      ensures results == old(results) + ResultsOf(old(completedStreams), parse)
    {
      ghost var before := results;
      for i := 0 to |completedStreams|
        invariant completedStreams == old(completedStreams)
        invariant results == before + ResultsOf(completedStreams[..i], parse)
      {
        var stream := completedStreams[i];
        assert completedStreams[..i + 1] == completedStreams[..i] + [stream];
        ResultsAppend(completedStreams[..i], [stream], parse);
        assert [stream][1..] == [];
        match parse(stream.xml) {
          case None =>
          case Some(objects) =>
            if |objects| > 0 {
              results := results + [MetadataResult(stream.pts, objects)];
            }
        }
      }
      assert completedStreams[..|completedStreams|] == completedStreams;
      completedStreams := [];
    }

    method GetCompletedResults() returns (completed: seq<MetadataResult<O>>)
      requires Valid()
      modifies `results, `taken
      ensures Valid() && results == [] && completed == old(results) && taken == old(taken) + completed
    {
      completed := results;
      results := [];
      taken := taken + completed;
      assert taken + [] == taken;
    }
  }
}
