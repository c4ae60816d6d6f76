/** The MCP stdio loop: bounded line reading and request dispatch (crates/waymux-mcp/src/server.rs). */
module LineReader {
  import opened Bytes

  const MAX_LINE_SIZE: nat := 8 * 1024 * 1024
  const NEWLINE: byte := 10

  const PARSE_ERROR: int := -32700
  const INVALID_REQUEST: int := -32600
  const METHOD_NOT_FOUND: int := -32601
  const INVALID_PARAMS: int := -32602

  datatype LineRead = Line(bytes: seq<byte>) | TooLong | Eof

  // ----- newline splitting

  function FirstNewline(s: seq<byte>): (n: nat)
    ensures n <= |s| && NEWLINE !in s[..n] && (n < |s| ==> s[n] == NEWLINE)
  {
    if s == [] || s[0] == NEWLINE then 0 else 1 + FirstNewline(s[1..])
  }

  /** What follows the first newline. */
  function AfterFirst(s: seq<byte>): (r: seq<byte>)
  {
    if FirstNewline(s) < |s| then s[FirstNewline(s) + 1..] else []
  }

  /** The newline-terminated segments of a stream, and the last one without a newline unless it is empty. */
  function Segments(s: seq<byte>): (r: seq<seq<byte>>)
    decreases |s|
  {
    if s == [] then [] else
    var n := FirstNewline(s);
    if n == |s| then [s] else [s[..n]] + Segments(s[n + 1..])
  }

  function Join(segments: seq<seq<byte>>): (s: seq<byte>)
  {
    if segments == [] then [] else segments[0] + [10] + Join(segments[1..])
  }

  /** The stream with its last newline supplied where it is missing. */
  function Terminated(s: seq<byte>): (r: seq<byte>)
  {
    if s == [] || s[|s| - 1] == 10 then s else s + [10]
  }

  lemma {:induction false} TerminatedAfter(line: seq<byte>, rest: seq<byte>)
    ensures Terminated(line + [NEWLINE] + rest) == line + [NEWLINE] + Terminated(rest)
  {
    if rest == [] {
      assert line + [NEWLINE] + rest == line + [NEWLINE];
    } else {
      var s := line + [NEWLINE] + rest;
      assert s[|s| - 1] == rest[|rest| - 1];
      assert s + [NEWLINE] == line + [NEWLINE] + (rest + [NEWLINE]);
    }
  }

  lemma {:induction false} NoNewlines(s: seq<byte>)
    ensures forall i :: 0 <= i < |Segments(s)| ==> NEWLINE !in Segments(s)[i]
    decreases |s|
  {
    if s == [] {
    } else {
      var n := FirstNewline(s);
      if n == |s| { assert s[..n] == s; } else { NoNewlines(s[n + 1..]); }
    }
  }

  lemma {:induction false} JoinSegments(s: seq<byte>)
    ensures Join(Segments(s)) == Terminated(s)
    decreases |s|
  {
    if s == [] {
    } else {
      var n := FirstNewline(s);
      if n == |s| {
        assert s[..n] == s && [s][1..] == [];
        assert Join([s]) == s + [NEWLINE] + [];
      } else {
        var (line, rest) := (s[..n], s[n + 1..]);
        JoinSegments(rest);
        assert Segments(s)[0] == line && Segments(s)[1..] == Segments(rest);
        assert s == line + [NEWLINE] + rest;
        TerminatedAfter(line, rest);
      }
    }
  }

  /** Splitting loses and shares no byte: the segments hold no newline, and joined they are the stream
      again, with its last newline supplied where it was missing. */
  lemma {:induction false} SegmentsJoin(s: seq<byte>)
    ensures forall i :: 0 <= i < |Segments(s)| ==> 10 !in Segments(s)[i]
    ensures Join(Segments(s)) == Terminated(s)
  {
    NoNewlines(s);
    JoinSegments(s);
  }

  /** A segment longer than the cap is reported instead of returned. */
  function Capped(segment: seq<byte>): (r: LineRead)
  {
    if |segment| > MAX_LINE_SIZE then TooLong else Line(segment)
  }

  // ----- reading

  class Input {
    const data: seq<byte>
    var pos: nat

    ghost predicate Valid()
      reads this
    {
      pos <= |data|
    }

    ghost function Rest(): (s: seq<byte>)
      requires Valid()
      reads this
    {
      data[pos..]
    }

    constructor (data: seq<byte>)
      ensures Valid() && this.data == data && Rest() == data
    {
      this.data, pos := data, 0;
    }

    /** One byte, or none at the end. */
    method ReadByte() returns (b: Option<byte>)
      requires Valid()
      modifies this`pos
      ensures Valid()
      ensures old(Rest()) == [] ==> b == None && pos == old(pos)
      ensures old(Rest()) != [] ==> b == Some(old(Rest())[0]) && pos == old(pos) + 1
    {
      if pos == |data| { return None; }
      b := Some(data[pos]);
      pos := pos + 1;
    }

    /** `read_line_bounded`: one newline-delimited segment, at most MAX_LINE_SIZE bytes of it kept, and
        the stream left just after its newline. */
    method ReadLineBounded() returns (r: LineRead)
      requires Valid()
      modifies this`pos
      ensures Valid()
      ensures var s := old(Rest());
              r == (if s == [] then Eof else Capped(s[..FirstNewline(s)])) && Rest() == AfterFirst(s)
    {
      ghost var s, start := Rest(), pos;
      ghost var n := FirstNewline(s);
      var buf: seq<byte> := [];
      while true
        invariant Valid() && start <= pos && pos - start <= n
        invariant buf == s[..pos - start] && |buf| <= MAX_LINE_SIZE
        decreases |data| - pos
      {
        ghost var k := pos - start;
        assert Rest() == s[k..];
        var b := ReadByte();
        if b.None? {
          assert s[..k] == s;
          return if buf == [] then Eof else Line(buf);
        }
        if b.value == NEWLINE {
          EndsHere(s, k);
          return Line(buf);
        }
        NotYet(s, k);
        if |buf| >= MAX_LINE_SIZE {
          DrainLine(s, start);
          return TooLong;
        }
        buf := buf + [b.value];
      }
    }

    /** Skip to just after the next newline, or to the end. */
    method DrainLine(ghost s: seq<byte>, ghost start: nat)
      requires Valid() && start <= |data| && s == data[start..] && start < pos <= start + FirstNewline(s)
      modifies this`pos
      ensures Valid()
      ensures Rest() == AfterFirst(s)
    {
      while true
        invariant Valid() && start < pos <= start + FirstNewline(s)
        decreases |data| - pos
      {
        ghost var k := pos - start;
        assert Rest() == s[k..];
        var b := ReadByte();
        if b.None? || b.value == NEWLINE {
          if b.Some? { EndsHere(s, k); }
          return;
        }
        NotYet(s, k);
      }
    }
  }

  lemma {:induction false} EndsHere(s: seq<byte>, k: nat)
    requires k < |s| && k <= FirstNewline(s) && s[k] == NEWLINE
    ensures FirstNewline(s) == k
  {
    var n := FirstNewline(s);
    forall j | 0 <= j < n ensures s[j] != NEWLINE { assert s[..n][j] == s[j]; }
  }

  lemma {:induction false} NotYet(s: seq<byte>, k: nat)
    requires k < |s| && k <= FirstNewline(s) && s[k] != NEWLINE
    ensures k < FirstNewline(s)
  {
  }

  // ----- messages

  datatype Arguments = Absent | Null | Object(text: string) | Other
  datatype Params = Params(name: Option<string>, arguments: Arguments)
  datatype Message = Message(id: Option<string>, rpcMethod: Option<string>, params: Option<Params>)

  /** The result of a request: a tool's outcome, its failure included, is that of running it on its arguments, of which
      none stands for the empty object. */
  datatype Body = ServerInfo | ToolTable | Pong | Ran(tool: string, arguments: Option<string>)

  datatype Reply = Result(id: Option<string>, body: Body) | Error(id: Option<string>, code: int)

  function HandleToolsCall(id: string, msg: Message, tools: set<string>): (r: Reply)
  {
    if msg.params.None? then Error(Some(id), INVALID_PARAMS) else
    var p := msg.params.value;
    if p.name.None? then Error(Some(id), INVALID_PARAMS)
    else if p.name.value !in tools then Error(Some(id), INVALID_PARAMS)
    else
      match p.arguments
      case Absent => Result(Some(id), Ran(p.name.value, None))
      case Null => Result(Some(id), Ran(p.name.value, None))
      case Object(text) => Result(Some(id), Ran(p.name.value, Some(text)))
      case Other => Error(Some(id), INVALID_PARAMS)
  }

  function HandleMessage(msg: Message, tools: set<string>): (r: Option<Reply>)
  {
    if msg.rpcMethod.None? then
      if msg.id.Some? then Some(Error(msg.id, INVALID_REQUEST)) else None
    else if msg.id.None? then None
    else if msg.rpcMethod.value == "initialize" then Some(Result(msg.id, ServerInfo))
    else if msg.rpcMethod.value == "tools/list" then Some(Result(msg.id, ToolTable))
    else if msg.rpcMethod.value == "tools/call" then Some(HandleToolsCall(msg.id.value, msg, tools))
    else if msg.rpcMethod.value == "ping" then Some(Result(msg.id, Pong))
    else Some(Error(msg.id, METHOD_NOT_FOUND))
  }

  /** A request, and only a request, is answered, under its own id; a tool runs only for a known name with
      usable arguments. */
  lemma {:induction false} AnsweredByItsId(msg: Message, tools: set<string>)
    ensures HandleMessage(msg, tools).Some? <==> msg.id.Some?
    ensures HandleMessage(msg, tools).Some? ==> HandleMessage(msg, tools).value.id == msg.id
    ensures msg.rpcMethod == Some("tools/call") && msg.id.Some? ==>
              (HandleMessage(msg, tools).value.Result?
               <==> msg.params.Some? && msg.params.value.name.Some? && msg.params.value.name.value in tools
                    && !msg.params.value.arguments.Other?)
  {
    assert "tools/call"[0] != "initialize"[0] && |"tools/call"| == |"tools/list"| && |"ping"| == 4;
    assert "tools/call"[6] != "tools/list"[6];
  }

  /** JSON and whitespace are opaque: whether a line is blank after trimming, and what it parses to. */
  datatype Codec = Codec(blank: seq<byte> -> bool, parse: seq<byte> -> Option<Message>, tools: set<string>)

  /** The replies to one segment: none or one. */
  function ReplyTo(c: Codec, segment: seq<byte>): (r: seq<Reply>)
  {
    if Capped(segment).TooLong? then [Error(None, PARSE_ERROR)]
    else if c.blank(segment) then []
    else if c.parse(segment).None? then [Error(None, PARSE_ERROR)]
    else
      var h := HandleMessage(c.parse(segment).value, c.tools);
      if h.Some? then [h.value] else []
  }

  function Replies(c: Codec, segments: seq<seq<byte>>): (r: seq<Reply>)
  {
    if segments == [] then [] else ReplyTo(c, segments[0]) + Replies(c, segments[1..])
  }

  /** A segment that must be answered: too long, or not blank and either unparsable or carrying an id. */
  predicate Answerable(c: Codec, segment: seq<byte>)
  {
    |segment| > 0x80_0000
    || (!c.blank(segment) && (c.parse(segment).None? || c.parse(segment).value.id.Some?))
  }

  function CountAnswerable(c: Codec, segments: seq<seq<byte>>): (n: nat)
  {
    if segments == [] then 0
    else (if Answerable(c, segments[0]) then 1 else 0) + CountAnswerable(c, segments[1..])
  }

  lemma {:induction false} OneReplyEach(c: Codec, segments: seq<seq<byte>>)
    ensures |Replies(c, segments)| == CountAnswerable(c, segments)
  {
    if segments == [] {
    } else {
      OneReplyEach(c, segments[1..]);
      var s := segments[0];
      if c.parse(s).Some? { AnsweredByItsId(c.parse(s).value, c.tools); }
    }
  }

  /** What the reply to a segment must be, by the rules of JSON-RPC and MCP: a parse error without an id for one that
      is too long or unparsable; else under the message's id, the result of its method, or the error for a missing
      method, an unknown one, or a tool call that names no known tool or whose arguments are no object. */
  predicate Proper(c: Codec, segment: seq<byte>, reply: Reply)
  {
    if |segment| > 0x80_0000 || c.parse(segment).None? then reply == Error(None, -32700)
    else
      var msg := c.parse(segment).value;
      && reply.id == msg.id
      && match msg.rpcMethod
         case None => reply == Error(msg.id, -32600)
         case Some(name) =>
           && (name == "initialize" ==> reply == Result(msg.id, ServerInfo))
           && (name == "tools/list" ==> reply == Result(msg.id, ToolTable))
           && (name == "ping" ==> reply == Result(msg.id, Pong))
           && (name == "tools/call" ==> ProperCall(c.tools, msg, reply))
           && (name !in {"initialize", "tools/list", "ping", "tools/call"} ==> reply == Error(msg.id, -32601))
  }

  predicate ProperCall(tools: set<string>, msg: Message, reply: Reply)
  {
    if msg.params.Some? && msg.params.value.name.Some? && msg.params.value.name.value in tools
       && !msg.params.value.arguments.Other?
    then
      var args := msg.params.value.arguments;
      reply == Result(msg.id, Ran(msg.params.value.name.value, if args.Object? then Some(args.text) else None))
    else reply == Error(msg.id, -32602)
  }

  lemma {:induction false} ReplyIsProper(c: Codec, segment: seq<byte>)
    requires Answerable(c, segment)
    ensures |ReplyTo(c, segment)| == 1 && Proper(c, segment, ReplyTo(c, segment)[0])
  {
    assert "tools/call"[0] != "initialize"[0] && "tools/call"[6] != "tools/list"[6] && |"ping"| == 4;
    assert "tools/list"[0] != "initialize"[0];
  }

  /** The reply to the i-th segment comes after one for each answerable segment before it, and is the proper one. */
  lemma {:induction false} ReplyAt(c: Codec, segments: seq<seq<byte>>, i: nat)
    requires i < |segments| && Answerable(c, segments[i])
    ensures var k := CountAnswerable(c, segments[..i]);
            k < |Replies(c, segments)| && Proper(c, segments[i], Replies(c, segments)[k])
  {
    OneReplyEach(c, segments[..1]);
    assert segments[..1][0] == segments[0] && segments[..1][1..] == [];
    if i == 0 {
      ReplyIsProper(c, segments[0]);
    } else {
      ReplyAt(c, segments[1..], i - 1);
      assert segments[..i][0] == segments[0] && segments[..i][1..] == segments[1..][..i - 1];
      assert |ReplyTo(c, segments[0])| == if Answerable(c, segments[0]) then 1 else 0;
    }
  }

  /** `serve`: reads to the end of any stream and writes, in order, exactly the replies to its segments. */
  method Serve(input: Input, c: Codec) returns (output: seq<Reply>)
    requires input.Valid()
    modifies input`pos
    ensures input.Valid() && input.Rest() == []
    ensures output == Replies(c, Segments(old(input.Rest())))
    ensures |output| == CountAnswerable(c, Segments(old(input.Rest())))
  {
    output := [];
    while true
      invariant input.Valid()
      invariant output + Replies(c, Segments(input.Rest())) == Replies(c, Segments(old(input.Rest())))
      decreases |input.Rest()|
    {
      ghost var s := input.Rest();
      var line := input.ReadLineBounded();
      if line.Eof? {
        OneReplyEach(c, Segments(old(input.Rest())));
        return;
      }
      FirstSegment(c, s);
      var reply := Answer(c, line, s[..FirstNewline(s)]);
      Assoc(output, reply, Replies(c, Segments(input.Rest())));
      output := output + reply;
    }
  }

  /** The body of the serve loop for one line. */
  method Answer(c: Codec, line: LineRead, ghost segment: seq<byte>) returns (reply: seq<Reply>)
    requires line == Capped(segment)
    ensures reply == ReplyTo(c, segment)
  {
    if line.TooLong? { return [Error(None, PARSE_ERROR)]; }
    if c.blank(line.bytes) { return []; }
    var msg := c.parse(line.bytes);
    if msg.None? { return [Error(None, PARSE_ERROR)]; }
    var h := HandleMessage(msg.value, c.tools);
    reply := if h.Some? then [h.value] else [];
  }

  lemma {:induction false} FirstSegment(c: Codec, s: seq<byte>)
    requires s != []
    ensures Replies(c, Segments(s)) == ReplyTo(c, s[..FirstNewline(s)]) + Replies(c, Segments(AfterFirst(s)))
  {
    SplitsFirst(s);
    RepliesCons(c, s[..FirstNewline(s)], Segments(AfterFirst(s)));
  }

  lemma {:induction false} SplitsFirst(s: seq<byte>)
    requires s != []
    ensures Segments(s) == [s[..FirstNewline(s)]] + Segments(AfterFirst(s))
  {
    if FirstNewline(s) == |s| { assert s[..|s|] == s; }
  }

  lemma {:induction false} RepliesCons(c: Codec, line: seq<byte>, rest: seq<seq<byte>>)
    ensures Replies(c, [line] + rest) == ReplyTo(c, line) + Replies(c, rest)
  {
    assert ([line] + rest)[1..] == rest;
  }
}
