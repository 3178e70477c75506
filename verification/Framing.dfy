/** NETCONF end-of-message framing (section 4.3 of RFC 6242): the incremental
    reader of the client, the plain reader it must agree with, and the RPC
    session on top.  A character stands for one byte.
  */
module Framing {
  import opened Text
  import opened Wrappers

  const DELIM := "]]>]]>"

  /** Cap on the bytes buffered while one message is awaited. */
  const MAX_MESSAGE_SIZE: nat := 256 * 1024 * 1024

  /** Size of the buffer handed to one Read of the channel. */
  const CHUNK: nat := 32 * 1024

  /** How the channel ends once its chunks are exhausted. */
  datatype End = Eof | Cancelled | Broken

  datatype ReadError = Closed | Truncated(buffered: nat) | ContextDone | ChannelError | TooLong

  datatype ReadResult = Msg(msg: string) | Failed(error: ReadError)

  /** What a read returns, and the buffer and unread chunks it leaves. */
  datatype Outcome = Outcome(result: ReadResult, buf: string, input: seq<string>)

  function EndError(buf: string, end: End): ReadError {
    match end
    case Cancelled => ContextDone
    case Broken => ChannelError
    case Eof => if buf == "" then Closed else Truncated(|buf|)
  }

  /** The bytes of a list of chunks. */
  function Flat(input: seq<string>): string {
    if input == [] then "" else input[0] + Flat(input[1..])
  }

  // ---------- the two readers as functions ----------
  datatype Found = Found(msg: string, buf: string, input: seq<string>)

  /** The plain reader: search the whole buffer again after every chunk. */
  function Scan(buf: string, input: seq<string>): Option<Found>
    decreases |input|
  {
    var i := Index(buf, DELIM);
    if i >= 0 then Some(Found(buf[..i], buf[i + |DELIM|..], input))
    else if input == [] then None
    else Scan(buf + input[0], input[1..])
  }

  /** The client's reader without its watermark: capped, with its error cases. */
  function CappedRead(buf: string, input: seq<string>, end: End): Outcome
    decreases |input|
  {
    var i := Index(buf, DELIM);
    if i >= 0 then Outcome(Msg(buf[..i]), buf[i + |DELIM|..], input)
    else if input == [] then Outcome(Failed(EndError(buf, end)), buf, [])
    else
      var b := buf + input[0];
      if |b| > MAX_MESSAGE_SIZE then Outcome(Failed(TooLong), b, input[1..])
      else CappedRead(b, input[1..], end)
  }

  // ---------- the plain reader ----------

  /** The device side's reader. */
  class PlainReader {
    var buf: string
    var input: seq<string>

    constructor (input: seq<string>)
      ensures buf == "" && this.input == input
    {
      buf, this.input := "", input;
    }

    method Next() returns (r: Option<string>)
      modifies this
      ensures match Scan(old(buf), old(input))
              case Some(f) => r == Some(f.msg) && buf == f.buf && input == f.input
              case None => r == None && buf == old(buf) + Flat(old(input)) && input == []
    {
      while true
        invariant Scan(buf, input) == Scan(old(buf), old(input))
        invariant buf + Flat(input) == old(buf) + Flat(old(input))
        decreases |input|
      {
        var i := Index(buf, DELIM);
        if i >= 0 {
          r := Some(buf[..i]);
          buf := buf[i + |DELIM|..];
          return;
        }
        if input == [] { return None; }
        assert buf + Flat(input) == (buf + input[0]) + Flat(input[1..]);
        buf, input := buf + input[0], input[1..];
      }
    }
  }

  // ---------- what the readers mean for the whole stream ----------

  /** A match inside a prefix is the first match of the whole. */
  lemma FirstMatchExtends(a: string, b: string)
    requires Index(a, DELIM) >= 0
    ensures Index(a + b, DELIM) == Index(a, DELIM)
  {
    var i := Index(a, DELIM);
    IndexFirst(a, DELIM);
    assert (a + b)[i..i + |DELIM|] == a[i..i + |DELIM|];
    forall j | 0 <= j < i ensures !At(a + b, j, DELIM) {
      assert (a + b)[j..j + |DELIM|] == a[j..j + |DELIM|];
      assert !At(a, j, DELIM);
    }
    FirstIndexUnique(a + b, DELIM, i);
  }

  /** Whatever the chunks, the reader cuts the stream at its first delimiter,
      loses no byte, and comes back empty only from a stream without one. */
  lemma {:induction false} ScanCutsAtFirstDelimiter(buf: string, input: seq<string>)
    ensures var whole := buf + Flat(input);
            match Scan(buf, input)
            case None => Index(whole, DELIM) == -1
            case Some(f) =>
              && Index(whole, DELIM) == |f.msg|
              && whole == f.msg + DELIM + (f.buf + Flat(f.input))
    decreases |input|
  {
    var i := Index(buf, DELIM);
    IndexFirst(buf, DELIM);
    if i >= 0 {
      FirstMatchExtends(buf, Flat(input));
      assert buf == buf[..i] + DELIM + buf[i + |DELIM|..];
      assert buf + Flat(input) == buf[..i] + DELIM + (buf[i + |DELIM|..] + Flat(input));
    } else if input == [] {
      assert buf + Flat(input) == buf;
    } else {
      assert buf + Flat(input) == (buf + input[0]) + Flat(input[1..]);
      ScanCutsAtFirstDelimiter(buf + input[0], input[1..]);
    }
  }

  /** The cap aside, the client's reader is the plain reader: a message is the
      same message, and the end of the channel is reported exactly when the plain
      reader finds nothing.  Even the cap consumes no byte. */
  lemma {:induction false} CappedReadRefinesScan(buf: string, input: seq<string>, end: End)
    ensures var c := CappedRead(buf, input, end);
            match c.result
            case Msg(m) => Scan(buf, input) == Some(Found(m, c.buf, c.input))
            case Failed(TooLong) =>
              && c.buf + Flat(c.input) == buf + Flat(input)
              && |c.buf| > MAX_MESSAGE_SIZE
              && |c.input| < |input|
            case Failed(e) =>
              && Scan(buf, input) == None
              && e == EndError(buf + Flat(input), end)
              && c.buf == buf + Flat(input) && c.input == []
    decreases |input|
  {
    var i := Index(buf, DELIM);
    if i >= 0 {
    } else if input == [] {
      assert buf + Flat(input) == buf;
    } else {
      assert buf + Flat(input) == (buf + input[0]) + Flat(input[1..]);
      CappedReadRefinesScan(buf + input[0], input[1..], end);
    }
  }

  /** What one call returns and leaves, in terms of the whole stream. */
  lemma ReadOutcome(buf: string, input: seq<string>, end: End)
    requires CappedRead(buf, input, end).result != Failed(TooLong)
    ensures var whole, c := buf + Flat(input), CappedRead(buf, input, end);
            var i := Index(whole, DELIM);
            if i >= 0 then c.result == Msg(whole[..i]) && c.buf + Flat(c.input) == whole[i + |DELIM|..]
            else c.result == Failed(EndError(whole, end)) && c.buf + Flat(c.input) == whole
  {
    var c := CappedRead(buf, input, end);
    CappedReadRefinesScan(buf, input, end);
    ScanOutcome(buf, input);
    if !c.result.Msg? { assert c.buf + Flat([]) == c.buf; }
  }

  lemma ScanOutcome(buf: string, input: seq<string>)
    ensures var whole := buf + Flat(input);
            var i := Index(whole, DELIM);
            match Scan(buf, input)
            case None => i == -1
            case Some(f) => i >= 0 && f.msg == whole[..i] && f.buf + Flat(f.input) == whole[i + |DELIM|..]
  {
    ScanCutsAtFirstDelimiter(buf, input);
    if Scan(buf, input).Some? {
      var f := Scan(buf, input).value;
      CutAgain(f.msg, f.buf + Flat(f.input));
    }
  }

  lemma CutAgain(msg: string, rest: string)
    ensures var whole := msg + DELIM + rest;
            whole[..|msg|] == msg && whole[|msg| + |DELIM|..] == rest
  {
  }

  /** The cap is out of play while the stream fits in it. */
  lemma {:induction false} ShortStreamsAreNotCapped(buf: string, input: seq<string>, end: End)
    requires |buf + Flat(input)| <= MAX_MESSAGE_SIZE
    ensures CappedRead(buf, input, end).result != Failed(TooLong)
    decreases |input|
  {
    if Index(buf, DELIM) < 0 && input != [] {
      assert buf + Flat(input) == (buf + input[0]) + Flat(input[1..]);
      ShortStreamsAreNotCapped(buf + input[0], input[1..], end);
    }
  }

  /** The cap bounds what one call may add to the buffer. */
  lemma {:induction false} CapBoundsBuffer(buf: string, input: seq<string>, end: End)
    requires forall i :: 0 <= i < |input| ==> 0 < |input[i]| <= CHUNK
    ensures |CappedRead(buf, input, end).buf| <= (if |buf| > MAX_MESSAGE_SIZE then |buf| else MAX_MESSAGE_SIZE) + CHUNK
    decreases |input|
  {
    if Index(buf, DELIM) < 0 && input != [] && |buf + input[0]| <= MAX_MESSAGE_SIZE {
      CapBoundsBuffer(buf + input[0], input[1..], end);
    }
  }

  /** The stream split at successive first delimiters, and what is left over. */
  function Messages(whole: string): (seq<string>, string)
    decreases |whole|
  {
    var i := Index(whole, DELIM);
    if i < 0 then ([], whole)
    else
      var (ms, rest) := Messages(whole[i + |DELIM|..]);
      ([whole[..i]] + ms, rest)
  }

  /** The results of `n` successive calls of the client's reader. */
  function Calls(buf: string, input: seq<string>, end: End, n: nat): (rs: seq<ReadResult>)
    ensures |rs| == n
    decreases n
  {
    if n == 0 then []
    else
      var c := CappedRead(buf, input, end);
      [c.result] + Calls(c.buf, c.input, end, n - 1)
  }

  /** What call `i` should return, from the whole stream alone. */
  function Expected(whole: string, end: End, i: nat): ReadResult {
    var (ms, rest) := Messages(whole);
    if i < |ms| then Msg(ms[i]) else Failed(EndError(rest, end))
  }

  lemma ExpectedStep(whole: string, end: End, i: nat)
    ensures var k := Index(whole, DELIM);
            Expected(whole, end, i) ==
              if k < 0 then Failed(EndError(whole, end))
              else if i == 0 then Msg(whole[..k])
              else Expected(whole[k + |DELIM|..], end, i - 1)
  {
  }

  predicate Uncapped(rs: seq<ReadResult>) {
    forall j :: 0 <= j < |rs| ==> rs[j] != Failed(TooLong)
  }

  /** For every chunking and every leftover buffer, the calls return the messages
      of the whole stream in order, then the error of a stream that has ended;
      only a call that hits the cap can interrupt this. */
  lemma {:induction false} CallsReturnTheMessages(buf: string, input: seq<string>, end: End, n: nat)
    requires Uncapped(Calls(buf, input, end, n))
    ensures Calls(buf, input, end, n) == ExpectedCalls(buf + Flat(input), end, 0, n)
    decreases n
  {
    if n > 0 {
      var c := CappedRead(buf, input, end);
      var later := Calls(c.buf, c.input, end, n - 1);
      var rs := Calls(buf, input, end, n);
      assert rs[0] == c.result;
      assert Uncapped(later) by { assert later == rs[1..]; }
      CallsReturnTheMessages(c.buf, c.input, end, n - 1);
      LaterCalls(buf, input, end, 0, n - 1);
      OneCall(buf, input, end, 0);
    }
  }

  function ExpectedCalls(whole: string, end: End, i: nat, n: nat): seq<ReadResult>
    decreases n
  {
    if n == 0 then [] else [Expected(whole, end, i)] + ExpectedCalls(whole, end, i + 1, n - 1)
  }

  lemma {:induction false} LaterCalls(buf: string, input: seq<string>, end: End, i: nat, n: nat)
    requires CappedRead(buf, input, end).result != Failed(TooLong)
    ensures var c := CappedRead(buf, input, end);
            ExpectedCalls(buf + Flat(input), end, i + 1, n) == ExpectedCalls(c.buf + Flat(c.input), end, i, n)
    decreases n
  {
    if n > 0 {
      OneCall(buf, input, end, i + 1);
      LaterCalls(buf, input, end, i + 1, n - 1);
    }
  }

  lemma OneCall(buf: string, input: seq<string>, end: End, i: nat)
    requires CappedRead(buf, input, end).result != Failed(TooLong)
    ensures var c := CappedRead(buf, input, end);
            Expected(buf + Flat(input), end, i) ==
              if i == 0 then c.result else Expected(c.buf + Flat(c.input), end, i - 1)
  {
    var whole := buf + Flat(input);
    ReadOutcome(buf, input, end);
    ExpectedStep(whole, end, i);
    if i > 0 { ExpectedStep(whole, end, i - 1); }
  }

  /** So the messages do not depend on how the bytes were cut into chunks. */
  lemma ChunkingDoesNotMatter(b1: string, in1: seq<string>, b2: string, in2: seq<string>, end: End, n: nat)
    requires b1 + Flat(in1) == b2 + Flat(in2)
    requires Uncapped(Calls(b1, in1, end, n)) && Uncapped(Calls(b2, in2, end, n))
    ensures Calls(b1, in1, end, n) == Calls(b2, in2, end, n)
  {
    CallsReturnTheMessages(b1, in1, end, n);
    CallsReturnTheMessages(b2, in2, end, n);
  }

  // ---------- writing frames ----------

  /** What either side writes for one message. */
  function Frame(body: string): string {
    body + "\n" + DELIM + "\n"
  }

  function Frames(bodies: seq<string>): string {
    if bodies == [] then "" else Frame(bodies[0]) + Frames(bodies[1..])
  }

  /** The newline that ends one frame is read at the head of the next message. */
  function Separator(k: nat): string {
    if k == 0 then "" else "\n"
  }

  /** The text a reader sees for the body of frame `k`. */
  function Wrapped(k: nat, body: string): string {
    Separator(k) + body + "\n"
  }

  /** The delimiter has the border "]]>": it is found where it was written iff the
      body does not end in that border. */
  lemma DelimiterNeedsCleanEnd(body: string)
    requires !Contains(body, DELIM)
    ensures Index(body + DELIM, DELIM) == |body| <==> !(|body| >= 3 && body[|body| - 3..] == "]]>")
  {
    var w, n := body + DELIM, |body|;
    IndexFirst(w, DELIM);
    AtRight(body, DELIM, 0, DELIM);
    if n >= 3 && body[n - 3..] == "]]>" {
      assert w[n - 3..n + 3] == body[n - 3..] + DELIM[..3];
      assert At(w, n - 3, DELIM);
    } else {
      forall j | 0 <= j < n ensures !At(w, j, DELIM) {
        if At(w, j, DELIM) { EarlyDelimiterIsBorder(body, j); }
      }
      FirstIndexUnique(w, DELIM, n);
    }
  }

  /** The delimiter overlaps itself only when shifted by three. */
  lemma EarlyDelimiterIsBorder(body: string, j: nat)
    requires !Contains(body, DELIM)
    requires j < |body| && At(body + DELIM, j, DELIM)
    ensures |body| == j + 3 && body[j..] == "]]>"
  {
    var w, n := body + DELIM, |body|;
    AtChars(w, j, DELIM);
    assert j + |DELIM| <= n ==> At(body, j, DELIM) by {
      if j + |DELIM| <= n { AtLeft(body, DELIM, j, DELIM); }
    }
    assert n < j + 6;
    assert w[j + (n - j)] == DELIM[n - j] && w[n + 0] == DELIM[0];
    assert w[j + 5] == DELIM[5] && w[n + (5 - (n - j))] == DELIM[5 - (n - j)];
    assert n == j + 3;
    assert w[j + 0] == ']' && w[j + 1] == ']' && w[j + 2] == '>';
    assert body[j..] == [w[j + 0], w[j + 1], w[j + 2]];
  }

  lemma WrappedContains(k: nat, body: string)
    ensures Contains(Wrapped(k, body), DELIM) <==> Contains(body, DELIM)
  {
    var w, s := Wrapped(k, body), Separator(k);
    assert w == s + (body + "\n");
    if Contains(body, DELIM) {
      var j :| 0 <= j <= |body| && At(body, j, DELIM);
      AtLeft(body, "\n", j, DELIM);
      AtRight(s, body + "\n", j, DELIM);
      assert At(w, |s| + j, DELIM);
    }
    if Contains(w, DELIM) {
      var j :| 0 <= j <= |w| && At(w, j, DELIM);
      InsideBody(s, body, j);
    }
  }

  lemma InsideBody(s: string, body: string, j: nat)
    requires (s == "" || s == "\n") && At(s + (body + "\n"), j, DELIM)
    ensures Contains(body, DELIM)
  {
    var w := s + (body + "\n");
    AtChars(w, j, DELIM);
    assert w[j + 0] == ']' && w[j + 5] == '>';
    AtRight(s, body + "\n", j - |s|, DELIM);
    AtLeft(body, "\n", j - |s|, DELIM);
    assert At(body, j - |s|, DELIM);
  }

  /** One frame, whatever follows it: the newline before the delimiter keeps the
      body's end away from it. */
  lemma FrameIsReadBack(k: nat, body: string, tail: string)
    requires !Contains(body, DELIM)
    ensures var whole := Separator(k) + Frame(body) + tail;
            && Index(whole, DELIM) == |Wrapped(k, body)|
            && whole[..|Wrapped(k, body)|] == Wrapped(k, body)
            && whole[|Wrapped(k, body)| + |DELIM|..] == "\n" + tail
  {
    var w := Wrapped(k, body);
    var whole := Separator(k) + Frame(body) + tail;
    WrappedContains(k, body);
    assert w[|w| - 1] == '\n';
    assert |w| >= 3 ==> w[|w| - 3..][2] == w[|w| - 1];
    DelimiterNeedsCleanEnd(w);
    assert whole == (w + DELIM) + ("\n" + tail);
    FirstMatchExtends(w + DELIM, "\n" + tail);
  }

  function WrappedAll(k: nat, bodies: seq<string>): seq<string>
    decreases |bodies|
  {
    if bodies == [] then [] else [Wrapped(k, bodies[0])] + WrappedAll(k + 1, bodies[1..])
  }

  /** Writing a list of bodies and reading them gives the list back, up to the
      separator newlines, exactly when no body holds the delimiter. */
  lemma FramesRoundTrip(k: nat, bodies: seq<string>)
    ensures Messages(Separator(k) + Frames(bodies)) == (WrappedAll(k, bodies), Separator(k + |bodies|))
            <==> forall b :: b in bodies ==> !Contains(b, DELIM)
  {
    if forall b :: b in bodies ==> !Contains(b, DELIM) {
      assert Clean(bodies);
      CleanFramesRoundTrip(k, bodies);
    } else {
      MessagesAreClean(Separator(k) + Frames(bodies));
      WrappedAllClean(k, bodies);
    }
  }

  lemma {:induction false} WrappedAllClean(k: nat, bodies: seq<string>)
    ensures (forall m :: m in WrappedAll(k, bodies) ==> !Contains(m, DELIM))
        ==> (forall b :: b in bodies ==> !Contains(b, DELIM))
    decreases |bodies|
  {
    if bodies != [] {
      WrappedContains(k, bodies[0]);
      WrappedAllClean(k + 1, bodies[1..]);
      var all := WrappedAll(k, bodies);
      assert all[0] == Wrapped(k, bodies[0]) && all[0] in all;
      assert forall m :: m in WrappedAll(k + 1, bodies[1..]) ==> m in all;
      assert forall b :: b in bodies ==> b == bodies[0] || b in bodies[1..];
    }
  }

  lemma {:induction false} CleanFramesRoundTrip(k: nat, bodies: seq<string>)
    requires Clean(bodies)
    ensures Messages(Separator(k) + Frames(bodies)) == (WrappedAll(k, bodies), Separator(k + |bodies|))
    decreases |bodies|
  {
    if bodies == [] {
      NothingAfterSeparator(k);
    } else {
      assert Separator(k) + Frames(bodies) == Separator(k) + Frame(bodies[0]) + Frames(bodies[1..]);
      MessagesStep(k, bodies[0], Frames(bodies[1..]));
      assert Separator(k + 1) == "\n";
      CleanFramesRoundTrip(k + 1, bodies[1..]);
    }
  }

  lemma NothingAfterSeparator(k: nat)
    ensures Messages(Separator(k) + Frames([])) == ([], Separator(k))
  {
    var whole := Separator(k) + Frames([]);
    assert whole == Separator(k) && ']' !in whole;
    ContainsNeeds(whole, DELIM, ']');
    IndexFirst(whole, DELIM);
  }

  lemma MessagesStep(k: nat, body: string, tail: string)
    requires !Contains(body, DELIM)
    ensures var (ms, rest) := Messages("\n" + tail);
            Messages(Separator(k) + Frame(body) + tail) == ([Wrapped(k, body)] + ms, rest)
  {
    FrameIsReadBack(k, body, tail);
  }

  lemma {:induction false} MessagesAreClean(whole: string)
    ensures forall m :: m in Messages(whole).0 ==> !Contains(m, DELIM)
    decreases |whole|
  {
    var i := Index(whole, DELIM);
    if i >= 0 {
      MessagesAreClean(whole[i + |DELIM|..]);
      IndexFirst(whole, DELIM);
      assert whole == whole[..i] + whole[i..];
      forall j | 0 <= j <= i ensures !At(whole[..i], j, DELIM) {
        if j + |DELIM| <= i { AtLeft(whole[..i], whole[i..], j, DELIM); }
      }
      assert !Contains(whole[..i], DELIM);
    }
  }

  // ---------- lockstep with a replying server ----------

  /** Everything still to come from a server that has `replies[k..]` left to send,
      read up to and including the delimiter of the frame before. */
  predicate Owes(buf: string, input: seq<string>, replies: seq<string>, k: nat) {
    k <= |replies| && buf + Flat(input) == Separator(k) + Frames(replies[k..])
  }

  predicate Clean(replies: seq<string>) {
    forall i :: 0 <= i < |replies| ==> !Contains(replies[i], DELIM)
  }

  /** One call takes exactly the next reply, under every chunking; a call that hits
      the cap takes nothing, so that the call after it is one reply late. */
  lemma OneCallOneReply(buf: string, input: seq<string>, end: End, replies: seq<string>, k: nat)
    requires Clean(replies) && k < |replies|
    requires Owes(buf, input, replies, k)
    ensures var c := CappedRead(buf, input, end);
            if c.result == Failed(TooLong) then Owes(c.buf, c.input, replies, k)
            else c.result == Msg(Wrapped(k, replies[k])) && Owes(c.buf, c.input, replies, k + 1)
  {
    var whole := buf + Flat(input);
    NextFrame(replies, k);
    FrameIsReadBack(k, replies[k], Frames(replies[k + 1..]));
    CappedReadRefinesScan(buf, input, end);
    if CappedRead(buf, input, end).result != Failed(TooLong) { ReadOutcome(buf, input, end); }
  }

  lemma NextFrame(replies: seq<string>, k: nat)
    requires k < |replies|
    ensures Separator(k) + Frames(replies[k..]) == Separator(k) + Frame(replies[k]) + Frames(replies[k + 1..])
  {
    assert replies[k..][1..] == replies[k + 1..];
  }

  /** The call after one that hit the cap returns a message exactly when one is complete
      in what was buffered. */
  lemma AfterCap(buf: string, input: seq<string>, end: End)
    requires |buf| > MAX_MESSAGE_SIZE
    ensures CappedRead(buf, input, end).result.Msg? <==> Index(buf, DELIM) >= 0
  {
  }

  /** Why the bound is per call: the call after one that hit the cap returns a message
      exactly when the delimiter has been buffered already, and that message is the reply
      to the request before its own. */
  lemma CapDelaysReplies(buf: string, input: seq<string>, end: End, replies: seq<string>, k: nat)
    requires Clean(replies) && k < |replies|
    requires Owes(buf, input, replies, k)
    requires CappedRead(buf, input, end).result == Failed(TooLong)
    ensures var c := CappedRead(buf, input, end);
            var next := CappedRead(c.buf, c.input, end).result;
            if Index(c.buf, DELIM) >= 0 then next == Msg(Wrapped(k, replies[k])) else !next.Msg?
  {
    OneCallOneReply(buf, input, end, replies, k);
    CappedReadRefinesScan(buf, input, end);
    var c := CappedRead(buf, input, end);
    AfterCap(c.buf, c.input, end);
    OneCallOneReply(c.buf, c.input, end, replies, k);
  }

  /** Whatever a call returns from a buffer within the cap fits in the cap, with its
      delimiter and the leftover. */
  lemma {:induction false} MessagesFit(buf: string, input: seq<string>, end: End)
    requires |buf| <= MAX_MESSAGE_SIZE
    ensures var c := CappedRead(buf, input, end);
            c.result.Msg? ==> |c.result.msg| + |DELIM| + |c.buf| <= MAX_MESSAGE_SIZE
    decreases |input|
  {
    if Index(buf, DELIM) < 0 && input != [] && |buf + input[0]| <= MAX_MESSAGE_SIZE {
      MessagesFit(buf + input[0], input[1..], end);
    }
  }

  /** So a reply that does not fit hits the cap under every chunking. */
  lemma LongRepliesHitTheCap(buf: string, input: seq<string>, end: End, replies: seq<string>, k: nat)
    requires Clean(replies) && k < |replies| && |buf| <= MAX_MESSAGE_SIZE
    requires Owes(buf, input, replies, k)
    requires |Wrapped(k, replies[k])| + |DELIM| > MAX_MESSAGE_SIZE
    ensures CappedRead(buf, input, end).result == Failed(TooLong)
  {
    OneCallOneReply(buf, input, end, replies, k);
    MessagesFit(buf, input, end);
  }

  // A session in which the late reply comes: one reply a byte too long, in full chunks.

  /** A read goes on past chunks that neither hold a delimiter nor fill the cap. */
  lemma {:induction false} ReadThrough(buf: string, some: seq<string>, rest: seq<string>, end: End)
    requires Index(buf + Flat(some), DELIM) < 0 && |buf + Flat(some)| <= MAX_MESSAGE_SIZE
    ensures CappedRead(buf, some + rest, end) == CappedRead(buf + Flat(some), rest, end)
    decreases |some|
  {
    if some == [] {
      assert some + rest == rest && buf + Flat(some) == buf;
    } else {
      assert buf + Flat(some) == (buf + some[0]) + Flat(some[1..]);
      if Index(buf, DELIM) >= 0 { FirstMatchExtends(buf, Flat(some)); }
      assert (some + rest)[0] == some[0] && (some + rest)[1..] == some[1..] + rest;
      ReadThrough(buf + some[0], some[1..], rest, end);
    }
  }

  /** The text in pieces of at most `n`. */
  function Pieces(s: string, n: nat): seq<string>
    requires n > 0
    decreases |s|
  {
    if s == "" then [] else if |s| <= n then [s] else [s[..n]] + Pieces(s[n..], n)
  }

  lemma {:induction false} PiecesIs(s: string, n: nat)
    requires n > 0
    ensures Flat(Pieces(s, n)) == s
    ensures forall i :: 0 <= i < |Pieces(s, n)| ==> 0 < |Pieces(s, n)[i]| <= n
    decreases |s|
  {
    if |s| > n {
      PiecesIs(s[n..], n);
      assert s == s[..n] + s[n..];
    } else if s != "" {
      assert [s][1..] == [] && s + "" == s;
    }
  }

  /** A reply that exceeds the cap by one byte, framed after another. */
  function LongReply(): string {
    seq(MAX_MESSAGE_SIZE - |DELIM| - 1, i => 'x')
  }

  /** Its bytes but for the last two. */
  function LongStart(): string {
    LongReply() + "\n" + "]]>]]"
  }

  function LongInput(): seq<string> {
    Pieces(LongStart(), CHUNK) + [">\n"]
  }

  /** Two requests late in a session: the first call fails with the cap, and the second,
      made for another request, returns the reply to the first. */
  lemma LateReplyComes(k: nat, end: End)
    requires k > 0
    ensures "\n" + Flat(LongInput()) == Separator(k) + Frames([LongReply()])
    ensures forall i :: 0 <= i < |LongInput()| ==> 0 < |LongInput()[i]| <= CHUNK
    ensures Calls("\n", LongInput(), end, 2) == [Failed(TooLong), Msg(Wrapped(k, LongReply()))]
  {
    PiecesIs(LongStart(), CHUNK);
    LongReplyIsOwed(k);
    NoDelimiterYet();
    ReadThrough("\n", Pieces(LongStart(), CHUNK), [">\n"], end);
    OverTheCap(k, end);
    CallsTwo("\n", LongInput(), end);
  }

  /** So two metadata requests there get no answer and the answer to the other. */
  lemma LateAnswers(k: nat, end: End, refused: string -> bool, answers: seq<Option<string>>)
    requires k > 0 && !refused(Wrapped(k, LongReply()))
    requires |answers| == 2 && Answered(answers, Calls("\n", LongInput(), end, 2), 0, refused)
    ensures answers == [None, Some(Wrapped(k, LongReply()))]
  {
    LateReplyComes(k, end);
  }

  lemma CallsTwo(buf: string, input: seq<string>, end: End)
    ensures var c := CappedRead(buf, input, end);
            Calls(buf, input, end, 2) == [c.result, CappedRead(c.buf, c.input, end).result]
  {
    var c := CappedRead(buf, input, end);
    var d := CappedRead(c.buf, c.input, end);
    assert Calls(c.buf, c.input, end, 1) == [d.result] + Calls(d.buf, d.input, end, 0);
  }

  lemma LongReplyIsOwed(k: nat)
    requires k > 0
    ensures "\n" + Flat(LongInput()) == Separator(k) + Frames([LongReply()])
  {
    PiecesIs(LongStart(), CHUNK);
    FlatConcat(Pieces(LongStart(), CHUNK), [">\n"]);
    FlatOne(">\n");
    FrameInTwo(LongReply());
    FramesOne(LongReply());
  }

  lemma FlatOne(chunk: string)
    ensures Flat([chunk]) == chunk
  {
    assert [chunk][1..] == [];
  }

  lemma FramesOne(body: string)
    ensures Frames([body]) == Frame(body)
  {
    assert [body][1..] == [];
  }

  lemma FrameInTwo(body: string)
    ensures (body + "\n" + "]]>]]") + ">\n" == Frame(body)
    ensures ("\n" + (body + "\n" + "]]>]]")) + ">\n" == "\n" + Frame(body) + ""
  {
    assert "]]>]]" + ">\n" == DELIM + "\n";
    assert (body + "\n" + "]]>]]") + ">\n" == body + "\n" + ("]]>]]" + ">\n");
  }

  lemma NoDelimiterYet()
    ensures var most := "\n" + LongStart(); |most| == MAX_MESSAGE_SIZE && Index(most, DELIM) < 0
  {
    var most := "\n" + LongStart();
    EarlyBracket();
    IndexFirst(most, DELIM);
  }

  /** The only ">" before the end is the third character of the delimiter. */
  lemma EarlyBracket()
    ensures !Contains("\n" + LongStart(), DELIM)
  {
    var most := "\n" + LongStart();
    assert forall j :: 0 <= j < |most| && most[j] == '>' ==> j == |most| - 3;
    forall i | 0 <= i <= |most| ensures !At(most, i, DELIM) {
      if At(most, i, DELIM) { TwoBrackets(most, i); }
    }
  }

  lemma TwoBrackets(s: string, i: int)
    requires At(s, i, DELIM)
    ensures i + 5 < |s| && s[i + 2] == '>' && s[i + 5] == '>'
  {
    AtChars(s, i, DELIM);
    assert s[i + 2] == '>' && s[i + 5] == '>';
  }

  lemma OverTheCap(k: nat, end: End)
    requires k > 0 && Index("\n" + LongStart(), DELIM) < 0 && |"\n" + LongStart()| == MAX_MESSAGE_SIZE
    ensures var c := CappedRead("\n" + LongStart(), [">\n"], end);
            c.result == Failed(TooLong) && CappedRead(c.buf, c.input, end).result == Msg(Wrapped(k, LongReply()))
  {
    StepOver("\n" + LongStart(), ">\n", end);
    FrameInTwo(LongReply());
    ContainsNeeds(LongReply(), DELIM, ']');
    ReturnsBuffered(LongReply(), k, [], end);
  }

  lemma StepOver(buf: string, chunk: string, end: End)
    requires Index(buf, DELIM) < 0 && |buf| <= MAX_MESSAGE_SIZE < |buf + chunk|
    ensures CappedRead(buf, [chunk], end) == Outcome(Failed(TooLong), buf + chunk, [])
  {
    assert [chunk][1..] == [];
  }

  lemma ReturnsBuffered(body: string, k: nat, input: seq<string>, end: End)
    requires !Contains(body, DELIM)
    ensures CappedRead(Separator(k) + Frame(body) + "", input, end).result == Msg(Wrapped(k, body))
  {
    FrameIsReadBack(k, body, "");
  }

  /** Up to the first call that hits the cap, call `i` returned reply `k + i`. */
  predicate InStep(rs: seq<ReadResult>, replies: seq<string>, k: nat)
    requires k + |rs| <= |replies|
    decreases |rs|
  {
    || rs == []
    || rs[0] == Failed(TooLong)
    || (rs[0] == Msg(Wrapped(k, replies[k])) && InStep(rs[1..], replies, k + 1))
  }

  /** Lockstep under every chunking. */
  lemma {:induction false} Lockstep(buf: string, input: seq<string>, end: End, replies: seq<string>, k: nat, n: nat)
    requires Clean(replies) && k + n <= |replies|
    requires Owes(buf, input, replies, k)
    ensures InStep(Calls(buf, input, end, n), replies, k)
    decreases n
  {
    if n > 0 {
      OneCallOneReply(buf, input, end, replies, k);
      var c := CappedRead(buf, input, end);
      if c.result.Msg? { Lockstep(c.buf, c.input, end, replies, k + 1, n - 1); }
    }
  }

  lemma {:induction false} InStepAt(rs: seq<ReadResult>, replies: seq<string>, k: nat, i: nat)
    requires k + |rs| <= |replies| && InStep(rs, replies, k)
    requires Uncapped(rs) && i < |rs|
    ensures rs[i] == Msg(Wrapped(k + i, replies[k + i]))
    decreases i
  {
    if i > 0 {
      assert Uncapped(rs[1..]);
      InStepAt(rs[1..], replies, k + 1, i - 1);
    }
  }

  /** A server that sends a reply only once it has the request: no chunk spans two
      replies, so the chunks fall into one group per reply. */
  ghost predicate Prompt(buf: string, input: seq<string>, groups: seq<seq<string>>, replies: seq<string>, k: nat) {
    && |groups| == |replies| && k <= |replies|
    && (forall i :: 0 <= i < |groups| ==> Flat(groups[i]) == Frame(replies[i]))
    && exists left :: input == left + Ungroup(groups[k..]) && buf + Flat(left) == Separator(k)
  }

  function Ungroup(groups: seq<seq<string>>): seq<string> {
    if groups == [] then [] else groups[0] + Ungroup(groups[1..])
  }

  lemma {:induction false} FlatConcat(a: seq<string>, b: seq<string>)
    ensures Flat(a + b) == Flat(a) + Flat(b)
  {
    if a == [] {
      assert a + b == b;
    } else {
      assert (a + b)[1..] == a[1..] + b;
      FlatConcat(a[1..], b);
    }
  }

  lemma {:induction false} PromptOwes(groups: seq<seq<string>>, replies: seq<string>)
    requires |groups| == |replies|
    requires forall i :: 0 <= i < |groups| ==> Flat(groups[i]) == Frame(replies[i])
    ensures Flat(Ungroup(groups)) == Frames(replies)
  {
    if groups != [] {
      PromptOwes(groups[1..], replies[1..]);
      FlatConcat(groups[0], Ungroup(groups[1..]));
    }
  }

  /** A read that finds its delimiter in the first chunks leaves the others alone. */
  lemma {:induction false} ReadIsLocal(buf: string, input: seq<string>, more: seq<string>, end: End)
    requires Index(buf + Flat(input), DELIM) >= 0
    requires |buf + Flat(input)| <= MAX_MESSAGE_SIZE
    ensures var c := CappedRead(buf, input, end);
            c.result.Msg? && CappedRead(buf, input + more, end) == c.(input := c.input + more)
    decreases |input|
  {
    if input == [] {
      assert buf + Flat(input) == buf;
      assert input + more == more;
    } else if Index(buf, DELIM) < 0 {
      assert buf + Flat(input) == (buf + input[0]) + Flat(input[1..]);
      assert (input + more)[0] == input[0] && (input + more)[1..] == input[1..] + more;
      ReadIsLocal(buf + input[0], input[1..], more, end);
    }
  }

  /** Against such a server the cap concerns single replies only, and while every
      reply fits each call returns exactly the reply of its own request. */
  lemma PromptLockstep(buf: string, input: seq<string>, end: End, groups: seq<seq<string>>, replies: seq<string>, k: nat)
    requires Clean(replies) && k < |replies|
    requires Prompt(buf, input, groups, replies, k)
    requires 1 + |Frame(replies[k])| <= MAX_MESSAGE_SIZE
    ensures var c := CappedRead(buf, input, end);
            c.result == Msg(Wrapped(k, replies[k])) && Prompt(c.buf, c.input, groups, replies, k + 1)
  {
    var left :| input == left + Ungroup(groups[k..]) && buf + Flat(left) == Separator(k);
    var mine, others := left + groups[k], Ungroup(groups[k + 1..]);
    assert groups[k..][0] == groups[k] && groups[k..][1..] == groups[k + 1..];
    assert input == mine + others;
    FlatConcat(left, groups[k]);
    assert buf + Flat(mine) == Separator(k) + Frame(replies[k]) + "";
    ReadMine(buf, mine, others, end, replies[k], k);
  }

  /** The chunks of one reply are read without touching those of the next. */
  lemma ReadMine(buf: string, mine: seq<string>, others: seq<string>, end: End, reply: string, k: nat)
    requires buf + Flat(mine) == Separator(k) + Frame(reply) + "" && !Contains(reply, DELIM)
    requires 1 + |Frame(reply)| <= MAX_MESSAGE_SIZE
    ensures var c := CappedRead(buf, mine, end);
            && CappedRead(buf, mine + others, end) == Outcome(Msg(Wrapped(k, reply)), c.buf, c.input + others)
            && c.buf + Flat(c.input) == Separator(k + 1)
  {
    FrameIsReadBack(k, reply, "");
    ReadIsLocal(buf, mine, others, end);
    ReadOutcome(buf, mine, end);
    assert "\n" + "" == Separator(k + 1);
  }

  lemma {:induction false} PromptCalls(buf: string, input: seq<string>, end: End, groups: seq<seq<string>>,
                                       replies: seq<string>, k: nat, n: nat)
    requires Clean(replies) && k + n <= |replies|
    requires Prompt(buf, input, groups, replies, k)
    requires forall i :: k <= i < k + n ==> 1 + |Frame(replies[i])| <= MAX_MESSAGE_SIZE
    ensures Uncapped(Calls(buf, input, end, n)) && InStep(Calls(buf, input, end, n), replies, k)
    decreases n
  {
    if n > 0 {
      PromptLockstep(buf, input, end, groups, replies, k);
      var c := CappedRead(buf, input, end);
      PromptCalls(c.buf, c.input, end, groups, replies, k + 1, n - 1);
      OneMoreInStep(c.result, Calls(c.buf, c.input, end, n - 1), replies, k);
    }
  }

  lemma OneMoreInStep(first: ReadResult, later: seq<ReadResult>, replies: seq<string>, k: nat)
    requires k + 1 + |later| <= |replies| && first == Msg(Wrapped(k, replies[k]))
    requires Uncapped(later) && InStep(later, replies, k + 1)
    ensures Uncapped([first] + later) && InStep([first] + later, replies, k)
  {
    assert ([first] + later)[1..] == later;
  }

  /** The calls from number `k` on return the rest of `rs`. */
  ghost predicate Delivers(buf: string, input: seq<string>, end: End, rs: seq<ReadResult>, k: nat) {
    k <= |rs| && forall n: nat :: n == |rs| - k ==> Calls(buf, input, end, n) == rs[k..]
  }

  lemma DeliversAll(buf: string, input: seq<string>, end: End, n: nat)
    ensures Delivers(buf, input, end, Calls(buf, input, end, n), 0)
  {
  }

  lemma NextCall(buf: string, input: seq<string>, end: End, rs: seq<ReadResult>, k: nat)
    requires Delivers(buf, input, end, rs, k) && k < |rs|
    ensures var c := CappedRead(buf, input, end);
            rs[k] == c.result && Delivers(c.buf, c.input, end, rs, k + 1)
  {
    var c := CappedRead(buf, input, end);
    var n: nat := |rs| - k;
    var tail := rs[k..];
    assert tail == Calls(buf, input, end, n) == [c.result] + Calls(c.buf, c.input, end, n - 1);
    assert tail[0] == rs[k] && tail[1..] == rs[k + 1..];
  }

  // ---------- the client's session ----------

  /** No occurrence starts before `searched`, so searching the rest is enough. */
  lemma SearchRest(buf: string, searched: nat)
    requires searched <= |buf|
    requires forall j :: 0 <= j < searched ==> !At(buf, j, DELIM)
    ensures var i := Index(buf[searched..], DELIM);
            Index(buf, DELIM) == if i < 0 then -1 else searched + i
  {
    var rest := buf[searched..];
    var i := Index(rest, DELIM);
    IndexFirst(buf, DELIM);
    IndexFirst(rest, DELIM);
    forall j | 0 <= j <= |rest|
      ensures At(rest, j, DELIM) <==> At(buf, searched + j, DELIM)
    {
      if j + |DELIM| <= |rest| {
        assert rest[j..j + |DELIM|] == buf[searched + j..searched + j + |DELIM|];
      }
    }
    if i >= 0 {
      forall j | 0 <= j < searched + i ensures !At(buf, j, DELIM) {
        if j >= searched { assert !At(rest, j - searched, DELIM); }
      }
      FirstIndexUnique(buf, DELIM, searched + i);
    } else {
      forall j | 0 <= j <= |buf| ensures !At(buf, j, DELIM) {
        if j >= searched { assert !At(rest, j - searched, DELIM); }
      }
    }
  }

  /** Bytes that arrive later cannot complete a delimiter that would have started
      more than five bytes before the end. */
  lemma WatermarkHolds(buf: string, more: string, searched: nat)
    requires searched <= |buf|
    requires Index(buf, DELIM) == -1
    requires searched == 0 || searched + |DELIM| - 1 <= |buf|
    ensures forall j :: 0 <= j < searched ==> !At(buf + more, j, DELIM)
  {
    IndexFirst(buf, DELIM);
    forall j | 0 <= j < searched ensures !At(buf + more, j, DELIM) {
      assert (buf + more)[j..j + |DELIM|] == buf[j..j + |DELIM|];
      assert !At(buf, j, DELIM);
    }
  }

  datatype RpcResult = Reply(msg: string) | DeviceError(msg: string) | ReadFailed(error: ReadError)

  class Session {
    var buf: string          // bytes received and not yet consumed
    var input: seq<string>   // chunks the channel will still deliver
    var msgId: nat
    var sent: seq<string>    // everything written to the channel
    const end: End

    ghost predicate Valid() reads this {
      forall i :: 0 <= i < |input| ==> 0 < |input[i]| <= CHUNK
    }

    constructor (input: seq<string>, end: End)
      requires forall i :: 0 <= i < |input| ==> 0 < |input[i]| <= CHUNK
      ensures Valid() && buf == "" && this.input == input && this.end == end
      ensures msgId == 0 && sent == []
    {
      buf, this.input, msgId, sent, this.end := "", input, 0, [], end;
    }

    /** The incremental search agrees with the search of the whole buffer. */
    method Read() returns (r: ReadResult)
      requires Valid()
      modifies this`buf, this`input
      ensures Valid()
      ensures Outcome(r, buf, input) == CappedRead(old(buf), old(input), end)
    {
      var searched := 0;
      while true
        invariant Valid() && 0 <= searched <= |buf|
        invariant searched == 0 || searched + |DELIM| - 1 <= |buf|
        invariant forall j :: 0 <= j < searched ==> !At(buf, j, DELIM)
        invariant CappedRead(buf, input, end) == CappedRead(old(buf), old(input), end)
        decreases |input|
      {
        SearchRest(buf, searched);
        var idx := Index(buf[searched..], DELIM);
        if idx >= 0 {
          var stop := searched + idx;
          r := Msg(buf[..stop]);
          buf := buf[stop + |DELIM|..];
          return;
        }
        var adv := |buf| - |DELIM| + 1;
        if adv > searched { searched := adv; }

        if input == [] {
          return Failed(EndError(buf, end));
        }
        WatermarkHolds(buf, input[0], searched);
        buf, input := buf + input[0], input[1..];
        if |buf| > MAX_MESSAGE_SIZE { return Failed(TooLong); }
      }
    }

    /** The server speaks first. */
    method Open() returns (r: ReadResult)
      requires Valid()
      modifies this`buf, this`input, this`sent
      ensures Valid()
      ensures Outcome(r, buf, input) == CappedRead(old(buf), old(input), end)
      ensures sent == if r.Msg? then old(sent) + [CLIENT_HELLO] else old(sent)
    {
      r := Read();
      if r.Msg? { sent := sent + [CLIENT_HELLO]; }
    }

    /** One request, one reply; an error the device reports still uses up its reply. */
    method Rpc(body: string, refused: string -> bool) returns (r: RpcResult)
      requires Valid()
      modifies this`buf, this`input, this`msgId, this`sent
      ensures Valid()
      ensures msgId == old(msgId) + 1 && sent == old(sent) + [Request(msgId, body)]
      ensures var c := CappedRead(old(buf), old(input), end);
              && buf == c.buf && input == c.input
              && r == Judge(c.result, refused)
              && (r.Reply? <==> c.result.Msg? && !refused(c.result.msg))
              && (r.DeviceError? <==> c.result.Msg? && refused(c.result.msg))
              && (r.ReadFailed? <==> c.result.Failed?)
              && (c.result.Msg? ==> r.msg == c.result.msg)
    {
      msgId := msgId + 1;
      sent := sent + [Request(msgId, body)];
      var reply := Read();
      if reply.Failed? { return ReadFailed(reply.error); }
      if refused(reply.msg) { return DeviceError(reply.msg); }
      return Reply(reply.msg);
    }

    /** One configuration request. */
    method Ask(format: string, refused: string -> bool, parse: (string, string) -> Option<string>)
      returns (content: Option<string>)
      requires Valid()
      modifies this`buf, this`input, this`msgId, this`sent
      ensures Valid()
      ensures msgId == old(msgId) + 1 && sent == old(sent) + [Request(msgId, format)]
      ensures var c := CappedRead(old(buf), old(input), end);
              buf == c.buf && input == c.input && content == Content(format, c.result, refused, parse)
    {
      var reply := Rpc(format, refused);
      if !reply.Reply? { return None; }
      content := parse(format, reply.msg);
      if content == None { return; }
      if TrimSpace(content.value) == "" { return None; }
    }

    /** The request for format `n` of a fetch under way. */
    method AskNext(formats: seq<string>, n: nat, refused: string -> bool, parse: (string, string) -> Option<string>,
                   ghost rs: seq<ReadResult>, ghost k: nat, ghost before: seq<string>, ghost id: nat)
      returns (content: Option<string>)
      requires Valid() && Delivers(buf, input, end, rs, k + n) && n < |formats| && k + |formats| <= |rs|
      requires msgId == id + n && HasAsked(sent, before, id, formats, n)
      modifies this`buf, this`input, this`msgId, this`sent
      ensures Valid() && content == Content(formats[n], rs[k + n], refused, parse)
      ensures content.Some? ==> Delivers(buf, input, end, rs, k + n + 1)
      ensures msgId == id + n + 1 && HasAsked(sent, before, id, formats, n + 1)
    {
      NextCall(buf, input, end, rs, k + n);
      AsksOneMore(sent, before, id, formats, n);
      content := Ask(formats[n], refused, parse);
    }

    /** One request per format, stopping at the first that fails. */
    method FetchConfigs(formats: seq<string>, refused: string -> bool,
                        parse: (string, string) -> Option<string>, ghost rs: seq<ReadResult>, ghost k: nat)
      returns (configs: seq<string>)
      requires Valid() && Delivers(buf, input, end, rs, k) && k + |formats| <= |rs|
      modifies this`buf, this`input, this`msgId, this`sent
      ensures Valid() && Yields(configs, rs, k, formats, refused, parse)
      ensures if |configs| < |formats| then Content(formats[|configs|], rs[k + |configs|], refused, parse) == None
              else Delivers(buf, input, end, rs, k + |formats|)
      ensures var n := if |configs| < |formats| then |configs| + 1 else |configs|;
              msgId == old(msgId) + n && HasAsked(sent, old(sent), old(msgId), formats, n)
    {
      configs := [];
      while |configs| < |formats|
        invariant Valid() && Yields(configs, rs, k, formats, refused, parse)
        invariant Delivers(buf, input, end, rs, k + |configs|)
        invariant msgId == old(msgId) + |configs| && HasAsked(sent, old(sent), old(msgId), formats, |configs|)
      {
        var content := AskNext(formats, |configs|, refused, parse, rs, k, old(sent), old(msgId));
        if content.None? { return; }
        YieldsOneMore(configs, content.value, rs, k, formats, refused, parse);
        configs := configs + [content.value];
      }
    }

    /** The metadata request `n` of a fetch under way. */
    method RpcNext(metadata: seq<string>, n: nat, refused: string -> bool,
                   ghost rs: seq<ReadResult>, ghost k: nat, ghost before: seq<string>, ghost id: nat)
      returns (reply: RpcResult)
      requires Valid() && Delivers(buf, input, end, rs, k + n) && n < |metadata| && k + |metadata| <= |rs|
      requires msgId == id + n && HasAsked(sent, before, id, metadata, n)
      modifies this`buf, this`input, this`msgId, this`sent
      ensures Valid() && reply == Judge(rs[k + n], refused) && Delivers(buf, input, end, rs, k + n + 1)
      ensures msgId == id + n + 1 && HasAsked(sent, before, id, metadata, n + 1)
    {
      NextCall(buf, input, end, rs, k + n);
      AsksOneMore(sent, before, id, metadata, n);
      reply := Rpc(metadata[n], refused);
    }

    /** The metadata requests: each may fail without ending the session. */
    method FetchMetadata(metadata: seq<string>, refused: string -> bool, ghost rs: seq<ReadResult>, ghost k: nat)
      returns (answers: seq<Option<string>>)
      requires Valid() && Delivers(buf, input, end, rs, k) && k + |metadata| <= |rs|
      modifies this`buf, this`input, this`msgId, this`sent
      ensures Valid() && |answers| == |metadata| && Answered(answers, rs, k, refused)
      ensures msgId == old(msgId) + |metadata| && sent == old(sent) + Written(old(msgId), metadata)
    {
      answers := [];
      while |answers| < |metadata|
        invariant Valid() && |answers| <= |metadata| && Answered(answers, rs, k, refused)
        invariant Delivers(buf, input, end, rs, k + |answers|)
        invariant msgId == old(msgId) + |answers| && HasAsked(sent, old(sent), old(msgId), metadata, |answers|)
      {
        var reply := RpcNext(metadata, |answers|, refused, rs, k, old(sent), old(msgId));
        var answer := if reply.Reply? then Some(reply.msg) else None;
        AnsweredOneMore(answers, answer, rs, k, refused);
        answers := answers + [answer];
      }
      assert metadata[..|answers|] == metadata;
    }

    /** The call sequence of a backup: the hello, one request per format, then the
        metadata requests.  Request `i` is judged by the result of call `1 + i` and
        by nothing else. */
    method Fetch(formats: seq<string>, metadata: seq<string>, refused: string -> bool,
                 parse: (string, string) -> Option<string>)
      returns (r: FetchResult)
      requires Valid()
      modifies this`buf, this`input, this`msgId, this`sent
      ensures Valid()
      ensures Explains(r, Calls(old(buf), old(input), end, 1 + |formats| + |metadata|), formats, metadata, refused, parse)
      ensures Traced(sent, old(sent), old(msgId), r, AskedFor(r, formats, metadata))
    {
      ghost var rs := Calls(buf, input, end, 1 + |formats| + |metadata|);
      DeliversAll(buf, input, end, 1 + |formats| + |metadata|);
      NextCall(buf, input, end, rs, 0);
      var hello := Open();
      if hello.Failed? { return OpenFailed; }
      ghost var greeted := sent;
      r := Requests(formats, metadata, refused, parse, rs);
      TraceOf(sent, greeted, old(sent), old(msgId), r, AskedFor(r, formats, metadata));
    }

    /** The requests after the hello. */
    method Requests(formats: seq<string>, metadata: seq<string>, refused: string -> bool,
                    parse: (string, string) -> Option<string>, ghost rs: seq<ReadResult>)
      returns (r: FetchResult)
      requires Valid() && Delivers(buf, input, end, rs, 1) && |rs| == 1 + |formats| + |metadata| && rs[0].Msg?
      modifies this`buf, this`input, this`msgId, this`sent
      ensures Valid() && !r.OpenFailed? && Explains(r, rs, formats, metadata, refused, parse)
      ensures sent == old(sent) + Written(old(msgId), AskedFor(r, formats, metadata))
    {
      var configs := FetchConfigs(formats, refused, parse, rs, 1);
      if |configs| < |formats| { return ConfigFailed(|configs|); }
      assert formats[..|configs|] == formats;
      WrittenInTwo(msgId - |formats|, formats, metadata);
      var answers := FetchMetadata(metadata, refused, rs, 1 + |formats|);
      return Fetched(configs, answers);
    }
  }

  /** The requests written for these bodies after message `id`. */
  function Written(id: nat, bodies: seq<string>): (ws: seq<string>)
    ensures |ws| == |bodies|
  {
    seq(|bodies|, i requires 0 <= i < |bodies| => Request(id + 1 + i, bodies[i]))
  }

  /** The first `n` of these requests, numbered from `id` on, have been written. */
  predicate HasAsked(sent: seq<string>, before: seq<string>, id: nat, bodies: seq<string>, n: nat) {
    n <= |bodies| && sent == before + Written(id, bodies[..n])
  }

  lemma AsksOneMore(sent: seq<string>, before: seq<string>, id: nat, bodies: seq<string>, n: nat)
    requires HasAsked(sent, before, id, bodies, n) && n < |bodies|
    ensures HasAsked(sent + [Request(id + n + 1, bodies[n])], before, id, bodies, n + 1)
  {
    assert Written(id, bodies[..n + 1]) == Written(id, bodies[..n]) + [Request(id + n + 1, bodies[n])];
    Regroup(before, Written(id, bodies[..n]), [Request(id + n + 1, bodies[n])]);
  }

  lemma WrittenInTwo(id: nat, a: seq<string>, b: seq<string>)
    ensures Written(id, a + b) == Written(id, a) + Written(id + |a|, b)
  {
  }

  /** What a fetch has written: nothing, or the client's hello and the requests. */
  predicate Traced(sent: seq<string>, before: seq<string>, id: nat, r: FetchResult, bodies: seq<string>) {
    sent == if r.OpenFailed? then before else before + ([CLIENT_HELLO] + Written(id, bodies))
  }

  lemma TraceOf(sent: seq<string>, greeted: seq<string>, before: seq<string>, id: nat, r: FetchResult, bodies: seq<string>)
    requires greeted == before + [CLIENT_HELLO] && sent == greeted + Written(id, bodies) && !r.OpenFailed?
    ensures Traced(sent, before, id, r, bodies)
  {
    Regroup(before, [CLIENT_HELLO], Written(id, bodies));
  }

  lemma Regroup<T>(a: seq<T>, b: seq<T>, c: seq<T>)
    ensures a + b + c == a + (b + c)
  {
  }

  /** What a fetch asks for: everything, or up to the format that failed. */
  function AskedFor(r: FetchResult, formats: seq<string>, metadata: seq<string>): seq<string> {
    match r
    case OpenFailed => []
    case ConfigFailed(n) => if n < |formats| then formats[..n + 1] else formats
    case Fetched(_, _) => formats + metadata
  }

  /** The results from `k` on, in order, are worth these configurations. */
  predicate Yields(configs: seq<string>, rs: seq<ReadResult>, k: nat, formats: seq<string>,
                   refused: string -> bool, parse: (string, string) -> Option<string>)
  {
    && |configs| <= |formats| && k + |formats| <= |rs|
    && forall i :: 0 <= i < |configs| ==> Content(formats[i], rs[k + i], refused, parse) == Some(configs[i])
  }

  lemma YieldsOneMore(configs: seq<string>, c: string, rs: seq<ReadResult>, k: nat, formats: seq<string>,
                      refused: string -> bool, parse: (string, string) -> Option<string>)
    requires Yields(configs, rs, k, formats, refused, parse) && |configs| < |formats|
    requires Content(formats[|configs|], rs[k + |configs|], refused, parse) == Some(c)
    ensures Yields(configs + [c], rs, k, formats, refused, parse)
  {
  }

  /** The results from `k` on, in order, are worth these answers. */
  predicate Answered(answers: seq<Option<string>>, rs: seq<ReadResult>, k: nat, refused: string -> bool) {
    k + |answers| <= |rs| && forall j :: 0 <= j < |answers| ==> answers[j] == Answer(rs[k + j], refused)
  }

  lemma AnsweredOneMore(answers: seq<Option<string>>, answer: Option<string>, rs: seq<ReadResult>, k: nat, refused: string -> bool)
    requires Answered(answers, rs, k, refused) && k + |answers| < |rs| && answer == Answer(rs[k + |answers|], refused)
    ensures Answered(answers + [answer], rs, k, refused)
  {
  }

  /** The outcome of a fetch, given what each of its calls returned. */
  predicate Explains(r: FetchResult, rs: seq<ReadResult>, formats: seq<string>, metadata: seq<string>,
                     refused: string -> bool, parse: (string, string) -> Option<string>)
    requires |rs| == 1 + |formats| + |metadata|
  {
    match r
    case OpenFailed => rs[0].Failed?
    case ConfigFailed(n) =>
      && rs[0].Msg? && n < |formats|
      && (forall i :: 0 <= i < n ==> Content(formats[i], rs[1 + i], refused, parse).Some?)
      && Content(formats[n], rs[1 + n], refused, parse) == None
    case Fetched(configs, answers) =>
      && rs[0].Msg? && |configs| == |formats| && |answers| == |metadata|
      && Yields(configs, rs, 1, formats, refused, parse)
      && Answered(answers, rs, 1 + |formats|, refused)
  }

  function Served(replies: seq<string>): (rs: seq<ReadResult>)
    ensures |rs| == |replies|
  {
    seq(|replies|, i requires 0 <= i < |replies| => Msg(Wrapped(i, replies[i])))
  }

  /** A fetch from a prompt server whose replies fit the cap is decided by the replies
      alone: each request by its own, whatever errors the others carry. */
  lemma FetchInLockstep(r: FetchResult, input: seq<string>, end: End, groups: seq<seq<string>>, replies: seq<string>,
                        formats: seq<string>, metadata: seq<string>,
                        refused: string -> bool, parse: (string, string) -> Option<string>)
    requires |replies| == 1 + |formats| + |metadata| && Clean(replies)
    requires Prompt("", input, groups, replies, 0)
    requires forall i :: 0 <= i < |replies| ==> 1 + |Frame(replies[i])| <= MAX_MESSAGE_SIZE
    ensures Explains(r, Calls("", input, end, |replies|), formats, metadata, refused, parse)
       <==> Explains(r, Served(replies), formats, metadata, refused, parse)
  {
    var rs := Calls("", input, end, |replies|);
    PromptCalls("", input, end, groups, replies, 0, |replies|);
    forall i | 0 <= i < |rs| ensures rs[i] == Served(replies)[i] { InStepAt(rs, replies, 0, i); }
    assert rs == Served(replies);
  }

  const CLIENT_HELLO :=
    "<?xml version=\"1.0\" encoding=\"UTF-8\"?>\n" +
    "<hello xmlns=\"urn:ietf:params:xml:ns:netconf:base:1.0\">\n" +
    "  <capabilities>\n" +
    "    <capability>urn:ietf:params:netconf:base:1.0</capability>\n" +
    "  </capabilities>\n" +
    "</hello>\n" + DELIM + "\n"

  function Decimal(n: nat): string {
    var digit := ["0123456789"[n % 10]];
    if n < 10 then digit else Decimal(n / 10) + digit
  }

  function Request(id: nat, body: string): string {
    Frame("<rpc message-id=\"" + Decimal(id) + "\">" + body + "</rpc>")
  }

  function Judge(result: ReadResult, refused: string -> bool): RpcResult {
    match result
    case Failed(e) => ReadFailed(e)
    case Msg(m) => if refused(m) then DeviceError(m) else Reply(m)
  }

  /** What the answer to a configuration request is worth: nothing when the read
      failed, the device refused, the reply does not parse, or it is blank. */
  function Content(format: string, result: ReadResult, refused: string -> bool,
                   parse: (string, string) -> Option<string>): Option<string> {
    match Judge(result, refused)
    case Reply(msg) =>
      var content := parse(format, msg);
      if content.Some? && TrimSpace(content.value) == "" then None else content
    case _ => None
  }

  function Answer(result: ReadResult, refused: string -> bool): Option<string> {
    match Judge(result, refused)
    case Reply(msg) => Some(msg)
    case _ => None
  }

  datatype FetchResult =
    | OpenFailed
    | ConfigFailed(n: nat)
    | Fetched(configs: seq<string>, answers: seq<Option<string>>)
}
