/** The Redis probe: commands written as RESP arrays, and replies read line by line from chunks cut anywhere. */
module RedisProbe {
  import opened Codings

  const CRLF := "\r\n"

  // ---- Lines ----

  /** A text cut at every CR LF, as `split` cuts it: the last part is what no CR LF ends yet. */
  function Parts(s: string): (r: seq<string>)
    ensures r != []
    decreases |s|
  {
    if s == "" then [""]
    else if |s| > 1 && s[0] == '\r' && s[1] == '\n' then [""] + Parts(s[2..])
    else
      var rest := Parts(s[1..]);
      [[s[0]] + rest[0]] + rest[1..]
  }

  /** The lines that a CR LF has ended. */
  function Lines(s: string): seq<string> {
    Parts(s)[..|Parts(s)| - 1]
  }

  function Unended(s: string): string {
    Parts(s)[|Parts(s)| - 1]
  }

  /** Cutting the unended part again with what follows it gives the parts of the whole, even when CR and LF come apart. */
  lemma {:induction false} PartsGrow(s: string, more: string)
    ensures Parts(s + more) == Lines(s) + Parts(Unended(s) + more)
    decreases |s|
  {
    if s == "" {
      assert Parts(s) == [""];
      hide Parts;
      assert s + more == more && Unended(s) + more == more && [] + Parts(more) == Parts(more);
    } else if |s| > 1 && s[0] == '\r' && s[1] == '\n' {
      var tail := s[2..];
      PartsGrow(tail, more);
      assert (s + more)[2..] == tail + more;
      PartsAtCrlf(s);
      PartsAtCrlf(s + more);
      hide Parts;
      EndsAfter("", Parts(tail));
      Regroup("", Lines(tail), Parts(Unended(tail) + more));
    } else {
      PartsGrowByOne(s, more);
    }
  }

  lemma EndsAfter(first: string, parts: seq<string>)
    requires parts != []
    ensures ([first] + parts)[..|parts|] == [first] + parts[..|parts| - 1] && ([first] + parts)[|parts|] == parts[|parts| - 1]
  {
  }

  lemma Regroup(first: string, a: seq<string>, b: seq<string>)
    ensures [first] + (a + b) == [first] + a + b
  {
  }

  lemma PartsAtCrlf(s: string)
    requires |s| > 1 && s[0] == '\r' && s[1] == '\n'
    ensures Parts(s) == [""] + Parts(s[2..])
  {
  }

  lemma PartsStep(s: string)
    requires s != "" && !(|s| > 1 && s[0] == '\r' && s[1] == '\n')
    ensures Parts(s) == [[s[0]] + Parts(s[1..])[0]] + Parts(s[1..])[1..]
  {
  }

  lemma FirstExtended(c: char, a: seq<string>, b: seq<string>)
    requires a != []
    ensures [[c] + (a + b)[0]] + (a + b)[1..] == [[c] + a[0]] + a[1..] + b
  {
  }

  lemma {:induction false} PartsGrowByOne(s: string, more: string)
    requires s != "" && !(|s| > 1 && s[0] == '\r' && s[1] == '\n')
    ensures Parts(s + more) == Lines(s) + Parts(Unended(s) + more)
    decreases |s|, 0
  {
    var tail := s[1..];
    PartsStep(s);
    OnePartOrText(tail);
    hide Parts;
    if |Parts(tail)| == 1 {
      assert [s[0]] + tail == s;
      assert Parts(s) == [s];
      assert Lines(s) == [] && Unended(s) == s;
    } else {
      PartsGrow(tail, more);
      assert (s + more)[1..] == tail + more && (s + more)[..|s|] == s;
      assert (s + more)[0] == s[0] && (s + more)[1] == s[1];
      PartsStep(s + more);
      assert Unended(s) == Unended(tail);
      assert Lines(s) == [[s[0]] + Lines(tail)[0]] + Lines(tail)[1..];
      FirstExtended(s[0], Lines(tail), Parts(Unended(tail) + more));
    }
  }

  lemma OnePartOrText(s: string)
    ensures |Parts(s)| == 1 ==> Parts(s) == [s]
    ensures |Parts(s)| > 1 ==> s != ""
  {
    if |Parts(s)| == 1 {
      OnePart(s);
    }
  }

  lemma {:induction false} OnePart(s: string)
    requires |Parts(s)| == 1
    ensures Parts(s) == [s]
    decreases |s|
  {
    if s != "" {
      OnePart(s[1..]);
      assert [s[0]] + s[1..] == s;
    }
  }

  /** Lines once ended stay, whatever follows. */
  lemma LinesStay(s: string, more: string)
    ensures Lines(s) <= Lines(s + more)
  {
    PartsGrow(s, more);
  }

  // ---- The reader ----

  function Concat(chunks: seq<string>): string {
    if chunks == [] then "" else Concat(chunks[..|chunks| - 1]) + chunks[|chunks| - 1]
  }

  /** One connection that waits for `wanted` replies; `answer` is what its promise was resolved with first. */
  class ReplyReader {
    const wanted: nat
    var buffer: string
    var replies: seq<string>
    var answer: Option<seq<string>>
    ghost var stream: string

    ghost predicate Valid()
      reads this
    {
      && buffer == Unended(stream)
      && replies == Lines(stream)
      && (answer.Some? ==> |replies| >= wanted && answer == Some(replies[..wanted]))
      && (answer.None? ==> stream == "" || |replies| < wanted)
    }

    constructor (wanted: nat)
      ensures Valid() && stream == "" && this.wanted == wanted && answer == None
    {
      this.wanted := wanted;
      buffer := "";
      replies := [];
      answer := None;
      stream := "";
    }

    /** The data handler. */
    method Data(chunk: string)
      requires Valid()
      modifies this
      ensures Valid() && stream == old(stream) + chunk
      ensures answer == if old(answer).Some? || |Lines(stream)| < wanted then old(answer) else Some(Lines(stream)[..wanted])
    {
      hide Parts;
      PartsGrow(stream, chunk);
      stream := stream + chunk;
      buffer := buffer + chunk;
      ghost var was := replies;
      var lines := Parts(buffer);
      buffer := lines[|lines| - 1];
      replies := replies + lines[..|lines| - 1];
      assert |was| >= wanted ==> replies[..wanted] == was[..wanted];
      if |replies| >= wanted && answer.None? {
        answer := Some(replies[..wanted]);
      }
    }
  }

  /**
   However the reply stream is cut into chunks, the promise is resolved if and only if something arrives and the whole stream has
   enough lines, and always with the first lines of the whole stream.
  */
  method RedisReplies(chunks: seq<string>, wanted: nat) returns (answer: Option<seq<string>>)
    ensures var lines := Lines(Concat(chunks));
            answer == if chunks != [] && |lines| >= wanted then Some(lines[..wanted]) else None
  {
    var reader := new ReplyReader(wanted);
    for i := 0 to |chunks|
      invariant reader.Valid() && reader.wanted == wanted && reader.stream == Concat(chunks[..i])
      invariant reader.answer.Some? <==> i > 0 && |reader.replies| >= wanted
    {
      LinesStay(reader.stream, chunks[i]);
      assert chunks[..i + 1][..i] == chunks[..i];
      reader.Data(chunks[i]);
    }
    assert chunks[..|chunks|] == chunks;
    answer := reader.answer;
  }

  // ---- What the lines are ----

  /** A text with no CR LF in it. */
  predicate OneLine(s: string) {
    Parts(s) == [s]
  }

  function Ended(lines: seq<string>): string {
    if lines == [] then "" else lines[0] + CRLF + Ended(lines[1..])
  }

  lemma {:induction false} LineFirst(line: string, rest: string)
    requires OneLine(line)
    ensures Parts(line + CRLF + rest) == [line] + Parts(rest)
    decreases |line|
  {
    var all := line + CRLF + rest;
    if line == "" {
      assert all[0] == '\r' && all[1] == '\n' && all[2..] == rest;
    } else {
      assert Parts(line)[0] == [line[0]] + Parts(line[1..])[0];
      assert all[1..] == line[1..] + CRLF + rest;
      assert [line[0]] + line[1..] == line;
      OnePart(line[1..]);
      LineFirst(line[1..], rest);
      assert all[0] == line[0] && (all[1] == '\n' ==> |line| > 1 && line[1] == '\n');
    }
  }

  /** Lines sent one after the other are the lines read. */
  lemma {:induction false} LinesAreRead(lines: seq<string>)
    requires forall l <- lines :: OneLine(l)
    ensures Lines(Ended(lines)) == lines && Unended(Ended(lines)) == ""
  {
    if lines != [] {
      assert forall l <- lines[1..] :: l in lines;
      assert lines[0] in lines;
      assert Ended(lines) == lines[0] + CRLF + Ended(lines[1..]);
      hide Parts, OneLine, Ended;
      LinesAreRead(lines[1..]);
      LineFirst(lines[0], Ended(lines[1..]));
      assert Lines(Ended(lines)) == [lines[0]] + Lines(Ended(lines[1..]));
      assert [lines[0]] + lines[1..] == lines;
    }
  }

  lemma EndedFirst(c: char, lines: seq<string>)
    requires lines != []
    ensures Ended([[c] + lines[0]] + lines[1..]) == [c] + Ended(lines)
  {
    var all := [[c] + lines[0]] + lines[1..];
    assert all[1..] == lines[1..];
    assert [c] + lines[0] + CRLF + Ended(lines[1..]) == [c] + (lines[0] + CRLF + Ended(lines[1..]));
  }

  lemma FirstIsOneLine(s: string)
    requires s != "" && !(|s| > 1 && s[0] == '\r' && s[1] == '\n')
    requires OneLine(Parts(s[1..])[0])
    ensures OneLine(Parts(s)[0])
  {
    var rest := Parts(s[1..])[0];
    FirstPartBegins(s[1..]);
    PartsStep(s);
    var first := [s[0]] + rest;
    assert first[1..] == rest;
    assert |first| > 1 ==> first[1] == s[1];
    PartsStep(first);
  }

  lemma FirstPartBegins(s: string)
    ensures Parts(s)[0] != "" ==> s != "" && Parts(s)[0][0] == s[0]
  {
  }

  /** No part of a text has a CR LF in it. */
  lemma {:induction false} PartsAreOneLine(s: string)
    ensures forall p <- Parts(s) :: OneLine(p)
    decreases |s|
  {
    if s == "" {
    } else if |s| > 1 && s[0] == '\r' && s[1] == '\n' {
      PartsAreOneLine(s[2..]);
    } else {
      PartsAreOneLine(s[1..]);
      PartsStep(s);
      FirstIsOneLine(s);
      hide Parts, OneLine;
      assert forall p <- Parts(s) :: p == Parts(s)[0] || p in Parts(s[1..]);
    }
  }

  /** A text is its lines, each ended by CR LF, and the part that is not ended. */
  lemma {:induction false} LinesSpell(s: string)
    ensures Ended(Lines(s)) + Unended(s) == s
    decreases |s|
  {
    if s == "" {
    } else if |s| > 1 && s[0] == '\r' && s[1] == '\n' {
      LinesSpell(s[2..]);
      assert Parts(s) == [""] + Parts(s[2..]);
      hide Parts;
      assert Lines(s) == [""] + Lines(s[2..]) && Lines(s)[1..] == Lines(s[2..]) && Unended(s) == Unended(s[2..]);
      assert CRLF + (Ended(Lines(s[2..])) + Unended(s[2..])) == s;
    } else {
      LinesSpell(s[1..]);
      LinesSpellStep(s);
    }
  }

  lemma LinesSpellStep(s: string)
    requires s != "" && !(|s| > 1 && s[0] == '\r' && s[1] == '\n')
    requires Ended(Lines(s[1..])) + Unended(s[1..]) == s[1..]
    ensures Ended(Lines(s)) + Unended(s) == s
  {
    var c, tail := s[0], s[1..];
    PartsStep(s);
    EndedNone();
    hide Parts, Ended;
    assert s == [c] + tail;
    if |Parts(tail)| == 1 {
      assert Lines(s) == [] && Lines(tail) == [] && Unended(s) == [c] + Unended(tail);
    } else {
      assert Lines(s) == [[c] + Lines(tail)[0]] + Lines(tail)[1..] && Unended(s) == Unended(tail);
      EndedFirst(c, Lines(tail));
      assert [c] + Ended(Lines(tail)) + Unended(tail) == [c] + (Ended(Lines(tail)) + Unended(tail));
    }
  }

  lemma EndedNone()
    ensures Ended([]) == ""
  {
  }

  /** A reply as the server sends it: its first line, and the lines after it when it is no one-line reply. */
  datatype Reply = Reply(first: string, others: seq<string>)

  function SentLines(replies: seq<Reply>): seq<string> {
    if replies == [] then [] else [replies[0].first] + replies[0].others + SentLines(replies[1..])
  }

  function FirstLines(replies: seq<Reply>): seq<string> {
    if replies == [] then [] else [replies[0].first] + FirstLines(replies[1..])
  }

  predicate WellFormed(reply: Reply) {
    OneLine(reply.first) && forall l <- reply.others :: OneLine(l)
  }

  lemma {:induction false} SentAreOneLine(replies: seq<Reply>)
    requires forall r <- replies :: WellFormed(r)
    ensures forall l <- SentLines(replies) :: OneLine(l)
  {
    hide OneLine;
    if replies != [] {
      assert WellFormed(replies[0]) && forall r <- replies[1..] :: r in replies;
      SentAreOneLine(replies[1..]);
    }
  }

  lemma {:induction false} OneLineReplies(replies: seq<Reply>)
    requires replies != [] && forall k :: 0 <= k < |replies| - 1 ==> replies[k].others == []
    ensures |SentLines(replies)| >= |replies| && SentLines(replies)[..|replies|] == FirstLines(replies)
  {
    if |replies| == 1 {
      assert FirstLines(replies) == [replies[0].first];
      assert SentLines(replies)[..1] == [replies[0].first];
    } else {
      forall k | 0 <= k < |replies[1..]| - 1 ensures replies[1..][k].others == [] {
        assert replies[1..][k] == replies[k + 1];
      }
      OneLineReplies(replies[1..]);
      assert replies[0].others == [];
      assert SentLines(replies) == [replies[0].first] + SentLines(replies[1..]);
    }
  }

  lemma {:induction false} NoReturn(s: string)
    requires '\r' !in s
    ensures OneLine(s)
  {
    if s != "" {
      NoReturn(s[1..]);
      assert [s[0]] + s[1..] == s;
    }
  }

  /** The answers to as many commands as there are replies are the first lines of the replies. */
  predicate Answered(replies: seq<Reply>) {
    var lines := Lines(Ended(SentLines(replies)));
    |lines| >= |replies| && lines[..|replies|] == FirstLines(replies)
  }

  lemma AnsweredBySent(replies: seq<Reply>)
    requires forall r <- replies :: WellFormed(r)
    ensures Lines(Ended(SentLines(replies))) == SentLines(replies)
  {
    SentAreOneLine(replies);
    LinesAreRead(SentLines(replies));
  }

  /** Up to the first long reply the answers are right; the answer after it is that reply's second line. */
  lemma {:induction false} UpToALongReply(replies: seq<Reply>, k: nat)
    requires k < |replies| && replies[k].others != [] && forall j :: 0 <= j < k ==> replies[j].others == []
    ensures |SentLines(replies)| > k + 1 && |FirstLines(replies)| == |replies|
    ensures SentLines(replies)[..k + 1] == FirstLines(replies)[..k + 1]
    ensures SentLines(replies)[k + 1] == replies[k].others[0]
    ensures forall j :: 0 <= j < |replies| ==> FirstLines(replies)[j] == replies[j].first
    decreases |replies|
  {
    FirstLinesAt(replies);
    var head := [replies[0].first];
    if k == 0 {
      assert SentLines(replies) == head + replies[0].others + SentLines(replies[1..]);
      assert SentLines(replies)[..1] == head && FirstLines(replies)[..1] == head;
    } else {
      UpToALongReply(replies[1..], k - 1);
      assert replies[0].others == [];
      assert SentLines(replies) == head + SentLines(replies[1..]) && FirstLines(replies) == head + FirstLines(replies[1..]);
      assert SentLines(replies)[..k + 1] == head + SentLines(replies[1..])[..k];
      assert FirstLines(replies)[..k + 1] == head + FirstLines(replies[1..])[..k];
    }
  }

  lemma {:induction false} FirstLinesAt(replies: seq<Reply>)
    ensures |FirstLines(replies)| == |replies|
    ensures forall j :: 0 <= j < |replies| ==> FirstLines(replies)[j] == replies[j].first
  {
    if replies != [] { FirstLinesAt(replies[1..]); }
  }

  /**
   Where the first wrong answer can be: with a long reply before the last one, the answers are right up to that reply, and the
   next answer is the long reply's second line, whatever the next reply is.
  */
  lemma LongReplyShiftsTheNext(replies: seq<Reply>, k: nat)
    requires forall r <- replies :: WellFormed(r)
    requires k + 1 < |replies| && replies[k].others != [] && forall j :: 0 <= j < k ==> replies[j].others == []
    ensures var lines := Lines(Ended(SentLines(replies)));
            && |lines| > k + 1
            && (forall j :: 0 <= j <= k ==> lines[j] == replies[j].first)
            && lines[k + 1] == replies[k].others[0]
            && (Answered(replies) ==> replies[k].others[0] == replies[k + 1].first)
  {
    AnsweredBySent(replies);
    UpToALongReply(replies, k);
    hide SentLines, FirstLines, Lines, Ended;
    var sent, first := SentLines(replies), FirstLines(replies);
    forall j | 0 <= j <= k ensures sent[j] == replies[j].first {
      assert sent[j] == sent[..k + 1][j] && first[j] == first[..k + 1][j];
    }
    if Answered(replies) {
      assert sent[k + 1] == sent[..|replies|][k + 1] == first[k + 1];
    }
  }

  /** How many lines each reply has after its first. */
  function Shape(replies: seq<Reply>): seq<nat> {
    seq(|replies|, k requires 0 <= k < |replies| => |replies[k].others|)
  }

  /** Every reply but the last is one line. */
  predicate OneLineButLast(shape: seq<nat>) {
    forall k :: 0 <= k < |shape| - 1 ==> shape[k] == 0
  }

  /** Replies of these shapes are answered rightly whatever they say. */
  ghost predicate AlwaysAnswered(shape: seq<nat>) {
    forall replies: seq<Reply> :: (forall r <- replies :: WellFormed(r)) && Shape(replies) == shape ==> Answered(replies)
  }

  lemma OneLineIsAnswered(replies: seq<Reply>)
    requires OneLineButLast(Shape(replies)) && forall r <- replies :: WellFormed(r)
    ensures Answered(replies)
  {
    AnsweredBySent(replies);
    if replies != [] {
      forall k | 0 <= k < |replies| - 1 ensures replies[k].others == [] {
        assert Shape(replies)[k] == 0;
      }
      OneLineReplies(replies);
    }
  }

  /** Replies of given shapes whose first lines differ from all their other lines. */
  function Telling(shape: seq<nat>): seq<Reply> {
    seq(|shape|, k requires 0 <= k < |shape| => Reply(":1", seq(shape[k], _ => "+")))
  }

  lemma LongShapeFails(shape: seq<nat>, k: nat)
    requires k + 1 < |shape| && shape[k] > 0 && forall j :: 0 <= j < k ==> shape[j] == 0
    ensures !AlwaysAnswered(shape)
  {
    var replies := Telling(shape);
    forall r | r in replies ensures WellFormed(r) {
      NoReturn(r.first);
      forall l | l in r.others ensures OneLine(l) { NoReturn(l); }
    }
    assert Shape(replies) == shape;
    assert replies[k].others[0] == "+" && replies[k + 1].first == ":1";
    forall j | 0 <= j < k ensures replies[j].others == [] { assert |replies[j].others| == shape[j]; }
    LongReplyShiftsTheNext(replies, k);
    assert ":1"[0] != "+"[0];
  }

  /**
   What a caller can rely on: the answers are the first lines of the replies, whatever the replies say, if and only if the commands
   are such that every reply but the last is one line.
  */
  lemma AnswersAreFirstLines(shape: seq<nat>)
    ensures AlwaysAnswered(shape) <==> OneLineButLast(shape)
  {
    if OneLineButLast(shape) {
      forall replies: seq<Reply> | (forall r <- replies :: WellFormed(r)) && Shape(replies) == shape ensures Answered(replies) {
        OneLineIsAnswered(replies);
      }
    } else {
      var k := FirstLong(shape);
      LongShapeFails(shape, k);
    }
  }

  lemma {:induction false} FirstLong(shape: seq<nat>) returns (k: nat)
    requires !OneLineButLast(shape)
    ensures k + 1 < |shape| && shape[k] > 0 && forall j :: 0 <= j < k ==> shape[j] == 0
  {
    k := 0;
    while shape[k] == 0
      invariant k + 1 < |shape| && forall j :: 0 <= j < k ==> shape[j] == 0
      decreases |shape| - k
    {
      if k + 2 == |shape| {
        assert forall j :: 0 <= j < |shape| - 1 ==> shape[j] == 0;
        assert false;
      }
      k := k + 1;
    }
  }

  // ---- Commands ----

  function Decimal(n: nat): (r: string)
    ensures r != ""
  {
    var digit := [(n % 10 + '0' as int) as char];
    if n < 10 then digit else Decimal(n / 10) + digit
  }

  function Bulks(args: seq<string>): string {
    if args == [] then "" else "$" + Decimal(|Utf8(args[0])|) + CRLF + args[0] + CRLF + Bulks(args[1..])
  }

  /** A command on the wire: an array of bulk strings, each with its length in bytes. */
  function Encode(args: seq<string>): string {
    "*" + Decimal(|args|) + CRLF + Bulks(args)
  }

  function Wire(commands: seq<seq<string>>): string {
    if commands == [] then "" else Encode(commands[0]) + Wire(commands[1..])
  }

  // A reader of RESP arrays, as a server has one.

  datatype Read<T> = Value(value: T, rest: seq<Byte>) | Malformed

  /** The number written before the next CR LF. */
  function ReadNumber(bytes: seq<Byte>, sofar: nat): (r: Read<nat>)
    ensures r.Value? ==> |r.rest| < |bytes|
  {
    if bytes == [] then Malformed
    else if 0x30 <= bytes[0] <= 0x39 then ReadNumber(bytes[1..], sofar * 10 + bytes[0] - 0x30)
    else if |bytes| > 1 && bytes[0] == 0x0D && bytes[1] == 0x0A then Value(sofar, bytes[2..])
    else Malformed
  }

  /** A sign, and the number after it. */
  function ReadHeader(sign: Byte, bytes: seq<Byte>): (r: Read<nat>)
    ensures r.Value? ==> |r.rest| < |bytes|
  {
    if bytes == [] || bytes[0] != sign then Malformed else ReadNumber(bytes[1..], 0)
  }

  function ReadBulk(bytes: seq<Byte>): (r: Read<seq<Byte>>)
    ensures r.Value? ==> |r.rest| < |bytes|
  {
    var size := ReadHeader(0x24, bytes);
    if size.Malformed? || |size.rest| < size.value + 2 then Malformed
    else if size.rest[size.value] != 0x0D || size.rest[size.value + 1] != 0x0A then Malformed
    else Value(size.rest[..size.value], size.rest[size.value + 2..])
  }

  function ReadArgs(bytes: seq<Byte>, count: nat): (r: Read<seq<string>>)
    ensures r.Value? ==> |r.rest| <= |bytes|
    decreases count
  {
    if count == 0 then Value([], bytes)
    else
      var bulk := ReadBulk(bytes);
      if bulk.Malformed? || Strictly(bulk.value).None? then Malformed
      else
        var others := ReadArgs(bulk.rest, count - 1);
        if others.Malformed? then Malformed else Value([Strictly(bulk.value).value] + others.value, others.rest)
  }

  function ReadCommands(bytes: seq<Byte>): Option<seq<seq<string>>>
    decreases |bytes|
  {
    if bytes == [] then Some([])
    else
      var count := ReadHeader(0x2A, bytes);
      if count.Malformed? then None
      else
        var args := ReadArgs(count.rest, count.value);
        if args.Malformed? then None
        else
          var others := ReadCommands(args.rest);
          if others.None? then None else Some([args.value] + others.value)
  }

  lemma {:induction false} Utf8Concat(a: string, b: string)
    ensures Utf8(a + b) == Utf8(a) + Utf8(b)
  {
    hide EncodeChar;
    if a == "" {
      assert a + b == b;
    } else {
      Utf8Concat(a[1..], b);
      assert (a + b)[1..] == a[1..] + b && (a + b)[0] == a[0];
      assert EncodeChar(a[0]) + (Utf8(a[1..]) + Utf8(b)) == EncodeChar(a[0]) + Utf8(a[1..]) + Utf8(b);
    }
  }

  lemma AsciiChar(c: char)
    requires c as int < 0x80
    ensures Utf8([c]) == [c as int]
  {
  }

  lemma CrlfBytes()
    ensures Utf8(CRLF) == [0x0D, 0x0A]
  {
    assert CRLF == ['\r'] + ['\n'];
    Utf8Concat(['\r'], ['\n']);
    AsciiChar('\r');
    AsciiChar('\n');
  }

  lemma {:induction false} DecimalIsRead(n: nat, rest: seq<Byte>)
    ensures ReadNumber(Utf8(Decimal(n)) + rest, 0) == ReadNumber(rest, n)
  {
    var c := (n % 10 + '0' as int) as char;
    var tail := [c as int] + rest;
    AsciiChar(c);
    assert tail[1..] == rest;
    if n < 10 {
      assert Utf8(Decimal(n)) + rest == tail;
    } else {
      Utf8Concat(Decimal(n / 10), [c]);
      assert Utf8(Decimal(n)) + rest == Utf8(Decimal(n / 10)) + tail;
      DecimalIsRead(n / 10, tail);
    }
  }

  lemma HeaderIsRead(sign: char, n: nat, rest: seq<Byte>)
    requires sign as int < 0x80
    ensures ReadHeader(sign as int, Utf8([sign] + Decimal(n) + CRLF) + rest) == Value(n, rest)
  {
    hide EncodeChar, Decimal;
    Utf8Concat([sign] + Decimal(n), CRLF);
    Utf8Concat([sign], Decimal(n));
    AsciiChar(sign);
    CrlfBytes();
    var tail: seq<Byte> := [0x0D, 0x0A] + rest;
    var bytes := Utf8([sign] + Decimal(n) + CRLF) + rest;
    assert bytes[1..] == Utf8(Decimal(n)) + tail;
    DecimalIsRead(n, tail);
    assert tail[2..] == rest;
  }

  /** A bulk string is read by its length, whatever its bytes are. */
  lemma BulkIsRead(arg: string, rest: seq<Byte>)
    ensures ReadBulk(Utf8("$" + Decimal(|Utf8(arg)|) + CRLF + arg + CRLF) + rest) == Value(Utf8(arg), rest)
  {
    hide Utf8, ReadHeader, Decimal;
    var header := "$" + Decimal(|Utf8(arg)|) + CRLF;
    Utf8Concat(header + arg, CRLF);
    Utf8Concat(header, arg);
    CrlfBytes();
    var body := Utf8(arg) + [0x0D, 0x0A] + rest;
    var bytes := Utf8(header + arg + CRLF) + rest;
    assert bytes == Utf8(header) + body;
    assert "$" == ['$'];
    HeaderIsRead('$', |Utf8(arg)|, body);
    var n := |Utf8(arg)|;
    assert body[n] == 0x0D && body[n + 1] == 0x0A && body[..n] == Utf8(arg) && body[n + 2..] == rest;
  }

  lemma {:induction false} ArgsAreRead(args: seq<string>, rest: seq<Byte>)
    ensures ReadArgs(Utf8(Bulks(args)) + rest, |args|) == Value(args, rest)
    decreases |args|
  {
    hide ReadBulk, Decimal, EncodeChar;
    if args == [] {
      assert Utf8(Bulks(args)) + rest == rest;
    } else {
      var first := "$" + Decimal(|Utf8(args[0])|) + CRLF + args[0] + CRLF;
      Utf8Concat(first, Bulks(args[1..]));
      var tail := Utf8(Bulks(args[1..])) + rest;
      assert Utf8(Bulks(args)) + rest == Utf8(first) + tail;
      BulkIsRead(args[0], tail);
      ArgsAreRead(args[1..], rest);
      DecodesUtf8(args[0]);
      assert [args[0]] + args[1..] == args;
    }
  }

  /** What is written for any commands, arguments with CR LF in them included, is read back as exactly those commands. */
  lemma {:induction false} CommandsAreRead(commands: seq<seq<string>>)
    ensures ReadCommands(Utf8(Wire(commands))) == Some(commands)
    decreases |commands|
  {
    hide ReadArgs, ReadHeader, Decimal, EncodeChar, Bulks;
    if commands != [] {
      var args := commands[0];
      var header := "*" + Decimal(|args|) + CRLF;
      var tail := Utf8(Wire(commands[1..]));
      Utf8Concat(header + Bulks(args), Wire(commands[1..]));
      Utf8Concat(header, Bulks(args));
      var bytes := Utf8(Wire(commands));
      assert bytes == Utf8(header) + (Utf8(Bulks(args)) + tail);
      assert "*" == ['*'];
      HeaderIsRead('*', |args|, Utf8(Bulks(args)) + tail);
      ArgsAreRead(args, tail);
      CommandsAreRead(commands[1..]);
      assert [commands[0]] + commands[1..] == commands;
    }
  }

  // ---- In plain words ----

  predicate CrlfAt(s: string, k: nat) {
    k + 1 < |s| && s[k] == '\r' && s[k + 1] == '\n'
  }

  /** A text is one line exactly when nowhere in it a CR is followed by an LF. */
  lemma {:induction false} OneLineInPlainWords(s: string)
    ensures OneLine(s) <==> forall k: nat :: !CrlfAt(s, k)
    decreases |s|
  {
    if s == "" {
    } else if |s| > 1 && s[0] == '\r' && s[1] == '\n' {
      assert Parts(s) == [""] + Parts(s[2..]) && CrlfAt(s, 0);
    } else {
      OneLineInPlainWords(s[1..]);
      PartsStep(s);
      OnePartOrText(s[1..]);
      assert [s[0]] + s[1..] == s;
      hide Parts;
      var tail := s[1..];
      assert forall k: nat :: CrlfAt(tail, k) <==> CrlfAt(s, k + 1);
      forall k: nat | CrlfAt(s, k) ensures k > 0 && CrlfAt(tail, k - 1) {
        assert k != 0;
      }
    }
  }

  /** The command that counts the keys, on the wire, character by character. */
  lemma DbsizeOnTheWire()
    ensures Encode(["DBSIZE"]) == "*1\r\n$6\r\nDBSIZE\r\n"
  {
    Lengths();
    assert ["DBSIZE"][1..] == [] && Bulks([]) == "";
    hide Utf8, Decimal;
    assert Bulks(["DBSIZE"]) == "$" + "6" + CRLF + "DBSIZE" + CRLF + "";
    assert Encode(["DBSIZE"]) == "*" + "1" + CRLF + ("$" + "6" + CRLF + "DBSIZE" + CRLF + "");
  }

  /** The command that selects a database, on the wire. */
  lemma SelectOnTheWire()
    ensures Encode(["SELECT", "12"]) == "*2\r\n$6\r\nSELECT\r\n$2\r\n12\r\n"
  {
    Lengths();
    assert ["SELECT", "12"][1..] == ["12"] && ["12"][1..] == [] && Bulks([]) == "";
    hide Utf8, Decimal;
    assert Bulks(["12"]) == "$" + "2" + CRLF + "12" + CRLF + "";
    assert Bulks(["SELECT", "12"]) == "$" + "6" + CRLF + "SELECT" + CRLF + ("$" + "2" + CRLF + "12" + CRLF + "");
  }

  lemma Lengths()
    ensures |Utf8("DBSIZE")| == 6 && |Utf8("SELECT")| == 6 && |Utf8("12")| == 2
    ensures Decimal(1) == "1" && Decimal(2) == "2" && Decimal(6) == "6"
  {
    AsciiLength("DBSIZE");
    AsciiLength("SELECT");
    AsciiLength("12");
  }

  lemma {:induction false} AsciiLength(s: string)
    requires forall c <- s :: c as int < 0x80
    ensures |Utf8(s)| == |s|
  {
    if s != "" {
      assert s[0] in s && forall c <- s[1..] :: c in s;
      AsciiLength(s[1..]);
    }
  }
}
