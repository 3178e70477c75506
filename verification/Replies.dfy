/** What a fetch makes of the replies, request by request, and the texts and limits on the
    wire, spelt out. */
module Replies {
  import opened Text
  import opened Wrappers
  import opened Framing

  // ---------- what a reply is worth ----------

  /** A message came and the device did not refuse. */
  predicate Accepted(result: ReadResult, refused: string -> bool) {
    result.Msg? && !refused(result.msg)
  }

  ghost predicate Blank(s: string) {
    forall i :: 0 <= i < |s| ==> IsSpace(s[i])
  }

  /** An accepted reply that parses to a text that is not blank. */
  ghost predicate Gives(format: string, result: ReadResult, refused: string -> bool,
                        parse: (string, string) -> Option<string>, config: string)
  {
    Accepted(result, refused) && parse(format, result.msg) == Some(config) && !Blank(config)
  }

  ghost predicate GivesNothing(format: string, result: ReadResult, refused: string -> bool,
                               parse: (string, string) -> Option<string>)
  {
    Accepted(result, refused) ==> parse(format, result.msg).None? || Blank(parse(format, result.msg).value)
  }

  lemma BlankIff(s: string)
    ensures TrimSpace(s) == "" <==> Blank(s)
  {
    TrimBlank(s, SPACES);
  }

  lemma ContentIs(format: string, result: ReadResult, refused: string -> bool, parse: (string, string) -> Option<string>, config: string)
    ensures Content(format, result, refused, parse) == Some(config) <==> Gives(format, result, refused, parse, config)
    ensures Content(format, result, refused, parse) == None <==> GivesNothing(format, result, refused, parse)
  {
    if result.Msg? && parse(format, result.msg).Some? { BlankIff(parse(format, result.msg).value); }
  }

  // ---------- the outcome of a fetch ----------

  ghost predicate ConfigsFrom(configs: seq<string>, rs: seq<ReadResult>, formats: seq<string>, refused: string -> bool,
                              parse: (string, string) -> Option<string>)
    requires |configs| == |formats| && |formats| < |rs|
  {
    forall i :: 0 <= i < |configs| ==> Gives(formats[i], rs[1 + i], refused, parse, configs[i])
  }

  /** The request for format `i` gives a configuration. */
  ghost predicate GivesAt(rs: seq<ReadResult>, formats: seq<string>, refused: string -> bool,
                          parse: (string, string) -> Option<string>, i: nat)
  {
    i < |formats| && 1 + i < |rs| && !GivesNothing(formats[i], rs[1 + i], refused, parse)
  }

  predicate AnswersFrom(answers: seq<Option<string>>, rs: seq<ReadResult>, k: nat, refused: string -> bool)
    requires k + |answers| <= |rs|
  {
    forall j :: 0 <= j < |answers| ==>
      if Accepted(rs[k + j], refused) then answers[j] == Some(rs[k + j].msg) else answers[j] == None
  }

  /** Which outcome goes with which results: no hello, no session; the first request for a
      configuration that gives nothing ends the fetch there; otherwise every configuration
      comes from an accepted reply and is not blank, and every metadata reply that was not
      accepted leaves no answer. */
  ghost predicate Follows(r: FetchResult, rs: seq<ReadResult>, formats: seq<string>, metadata: seq<string>,
                          refused: string -> bool, parse: (string, string) -> Option<string>)
    requires |rs| == 1 + |formats| + |metadata|
  {
    match r
    case OpenFailed => rs[0].Failed?
    case ConfigFailed(n) =>
      && rs[0].Msg? && n < |formats|
      && (forall i: nat :: i < n ==> GivesAt(rs, formats, refused, parse, i))
      && !GivesAt(rs, formats, refused, parse, n)
    case Fetched(configs, answers) =>
      && rs[0].Msg? && |configs| == |formats| && |answers| == |metadata|
      && ConfigsFrom(configs, rs, formats, refused, parse)
      && AnswersFrom(answers, rs, 1 + |formats|, refused)
  }

  lemma GivesAtIff(rs: seq<ReadResult>, formats: seq<string>, refused: string -> bool,
                   parse: (string, string) -> Option<string>, i: nat)
    requires i < |formats| && 1 + i < |rs|
    ensures GivesAt(rs, formats, refused, parse, i) <==> Content(formats[i], rs[1 + i], refused, parse).Some?
  {
    ContentIs(formats[i], rs[1 + i], refused, parse, "");
  }

  lemma ExplainsIff(r: FetchResult, rs: seq<ReadResult>, formats: seq<string>, metadata: seq<string>,
                    refused: string -> bool, parse: (string, string) -> Option<string>)
    requires |rs| == 1 + |formats| + |metadata|
    ensures Explains(r, rs, formats, metadata, refused, parse) <==> Follows(r, rs, formats, metadata, refused, parse)
  {
    forall i: nat | i < |formats|
      ensures GivesAt(rs, formats, refused, parse, i) <==> Content(formats[i], rs[1 + i], refused, parse).Some?
    {
      GivesAtIff(rs, formats, refused, parse, i);
    }
    if r.Fetched? && |r.configs| == |formats| {
      forall i | 0 <= i < |formats|
        ensures Content(formats[i], rs[1 + i], refused, parse) == Some(r.configs[i])
           <==> Gives(formats[i], rs[1 + i], refused, parse, r.configs[i])
      {
        ContentIs(formats[i], rs[1 + i], refused, parse, r.configs[i]);
      }
      if |r.answers| == |metadata| { AnsweredIff(r.answers, rs, 1 + |formats|, refused); }
    }
  }

  lemma AnsweredIff(answers: seq<Option<string>>, rs: seq<ReadResult>, k: nat, refused: string -> bool)
    requires k + |answers| <= |rs|
    ensures Answered(answers, rs, k, refused) <==> AnswersFrom(answers, rs, k, refused)
  {
  }

  /** The results decide the outcome. */
  lemma OutcomeIsDecided(r1: FetchResult, r2: FetchResult, rs: seq<ReadResult>, formats: seq<string>, metadata: seq<string>,
                         refused: string -> bool, parse: (string, string) -> Option<string>)
    requires |rs| == 1 + |formats| + |metadata|
    requires Follows(r1, rs, formats, metadata, refused, parse) && Follows(r2, rs, formats, metadata, refused, parse)
    ensures r1 == r2
  {
    if r1.Fetched? { FetchedGivesAll(r1, rs, formats, metadata, refused, parse); }
    if r2.Fetched? { FetchedGivesAll(r2, rs, formats, metadata, refused, parse); }
    if r1.Fetched? && r2.Fetched? {
      assert r1.configs == r2.configs;
      assert r1.answers == r2.answers;
    }
  }

  lemma FetchedGivesAll(r: FetchResult, rs: seq<ReadResult>, formats: seq<string>, metadata: seq<string>,
                        refused: string -> bool, parse: (string, string) -> Option<string>)
    requires |rs| == 1 + |formats| + |metadata|
    requires Follows(r, rs, formats, metadata, refused, parse) && r.Fetched?
    ensures forall i: nat :: i < |formats| ==> GivesAt(rs, formats, refused, parse, i)
  {
    forall i: nat | i < |formats| ensures GivesAt(rs, formats, refused, parse, i) {
      assert Gives(formats[i], rs[1 + i], refused, parse, r.configs[i]);
    }
  }

  /** A refused configuration reply ends the fetch at its format, if none before it did. */
  lemma RefusalEndsFetch(r: FetchResult, rs: seq<ReadResult>, formats: seq<string>, metadata: seq<string>,
                         refused: string -> bool, parse: (string, string) -> Option<string>, n: nat)
    requires |rs| == 1 + |formats| + |metadata| && n < |formats|
    requires Explains(r, rs, formats, metadata, refused, parse) && rs[0].Msg?
    requires forall i: nat :: i < n ==> GivesAt(rs, formats, refused, parse, i)
    requires rs[1 + n].Msg? && refused(rs[1 + n].msg)
    ensures r == ConfigFailed(n)
  {
    ExplainsIff(r, rs, formats, metadata, refused, parse);
    OutcomeIsDecided(r, ConfigFailed(n), rs, formats, metadata, refused, parse);
  }

  /** A refused metadata reply leaves no answer and does not end the fetch. */
  lemma RefusalLeavesNoAnswer(r: FetchResult, rs: seq<ReadResult>, formats: seq<string>, metadata: seq<string>,
                              refused: string -> bool, parse: (string, string) -> Option<string>, j: nat)
    requires |rs| == 1 + |formats| + |metadata| && j < |metadata|
    requires Explains(r, rs, formats, metadata, refused, parse) && r.Fetched?
    requires rs[1 + |formats| + j].Msg? && refused(rs[1 + |formats| + j].msg)
    ensures |r.answers| == |metadata| && r.answers[j] == None
  {
    ExplainsIff(r, rs, formats, metadata, refused, parse);
  }

  // ---------- on the wire ----------

  /** The number a string of decimal digits stands for. */
  function ReadDecimal(s: string): nat {
    if s == "" then 0
    else
      var d := s[|s| - 1];
      10 * ReadDecimal(s[..|s| - 1]) + if '0' <= d <= '9' then d as int - '0' as int else 0
  }

  predicate AreDigits(s: string) {
    forall i :: 0 <= i < |s| ==> '0' <= s[i] <= '9'
  }

  lemma OneMoreDigit(s: string, d: char)
    requires AreDigits(s) && '0' <= d <= '9'
    ensures AreDigits(s + [d]) && ReadDecimal(s + [d]) == 10 * ReadDecimal(s) + (d as int - '0' as int)
  {
    assert (s + [d])[..|s|] == s;
  }

  lemma DecimalUnfolds(n: nat) returns (q: nat, d: char)
    ensures '0' <= d <= '9' && n == 10 * q + (d as int - '0' as int)
    ensures Decimal(n) == (if q == 0 then "" else Decimal(q)) + [d]
  {
    q, d := n / 10, "0123456789"[n % 10];
    DigitOf(n % 10);
    if n < 10 { assert "" + [d] == [d]; }
  }

  /** The number of a request is written in decimal, without leading zeros. */
  lemma {:induction false} DecimalIsRead(n: nat)
    ensures Decimal(n) != "" && AreDigits(Decimal(n)) && ReadDecimal(Decimal(n)) == n
    ensures n > 0 ==> Decimal(n)[0] != '0'
  {
    var q, d := DecimalUnfolds(n);
    if q == 0 {
      OneMoreDigit("", d);
    } else {
      DecimalIsRead(q);
      OneMoreDigit(Decimal(q), d);
    }
  }

  lemma DigitOf(k: nat)
    requires k < 10
    ensures '0' <= "0123456789"[k] <= '9' && "0123456789"[k] as int - '0' as int == k
  {
  }

  /** What is written for a request: the numbered element, a newline, the delimiter, a
      newline. */
  lemma RequestIsSpelt(id: nat, body: string)
    ensures Request(id, body) == "<rpc message-id=\"" + Decimal(id) + "\">" + body + "</rpc>" + "\n]]>]]>\n"
  {
    var msg := "<rpc message-id=\"" + Decimal(id) + "\">" + body + "</rpc>";
    assert "\n" + DELIM + "\n" == "\n]]>]]>\n";
    assert Frame(msg) == msg + ("\n" + DELIM + "\n");
  }

  /** A stream of at most 256 MiB without a delimiter is read to its end, and how it ended
      is told: closed when nothing had come, truncated when something had. */
  lemma EndOfStream(buf: string, input: seq<string>, end: End)
    requires |buf + Flat(input)| <= 268435456
    requires !Contains(buf + Flat(input), "]]>]]>")
    ensures var r := CappedRead(buf, input, end).result;
            && (end == Eof && buf + Flat(input) == "" ==> r == Failed(Closed))
            && (end == Eof && buf + Flat(input) != "" ==> r == Failed(Truncated(|buf + Flat(input)|)))
            && (end == Cancelled ==> r == Failed(ContextDone))
            && (end == Broken ==> r == Failed(ChannelError))
  {
    var whole := buf + Flat(input);
    ShortStreamsAreNotCapped(buf, input, end);
    ReadOutcome(buf, input, end);
    DelimiterFoundIff(whole);
  }

  /** A stream with its first delimiter within 256 MiB gives the message before it. */
  lemma MessageWithinCap(buf: string, input: seq<string>, end: End, i: nat)
    requires |buf + Flat(input)| <= 268435456
    requires At(buf + Flat(input), i, "]]>]]>") && forall j :: 0 <= j < i ==> !At(buf + Flat(input), j, "]]>]]>")
    ensures CappedRead(buf, input, end).result == Msg((buf + Flat(input))[..i])
  {
    var whole := buf + Flat(input);
    ShortStreamsAreNotCapped(buf, input, end);
    ReadOutcome(buf, input, end);
    FirstIndexUnique(whole, "]]>]]>", i);
  }

  /** A stream longer than that without a delimiter hits the cap. */
  lemma {:induction false} BeyondCap(buf: string, input: seq<string>, end: End)
    requires |buf| <= 268435456 < |buf + Flat(input)|
    requires !Contains(buf + Flat(input), "]]>]]>")
    ensures CappedRead(buf, input, end).result == Failed(TooLong)
    decreases |input|
  {
    NotInFront(buf, Flat(input));
    DelimiterFoundIff(buf);
    if input != [] && |buf + input[0]| <= 268435456 {
      assert buf + Flat(input) == (buf + input[0]) + Flat(input[1..]);
      BeyondCap(buf + input[0], input[1..], end);
    }
  }

  lemma DelimiterFoundIff(s: string)
    ensures Index(s, DELIM) >= 0 <==> Contains(s, "]]>]]>")
  {
    IndexFirst(s, DELIM);
    if i :| 0 <= i <= |s| && At(s, i, "]]>]]>") {
      assert At(s, i, DELIM);
    }
  }

  lemma NotInFront(a: string, b: string)
    ensures Contains(a, "]]>]]>") ==> Contains(a + b, "]]>]]>")
  {
    if i :| 0 <= i <= |a| && At(a, i, "]]>]]>") {
      AtLeft(a, b, i, "]]>]]>");
    }
  }
}
