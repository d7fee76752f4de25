// One exchange over the control socket: the frames the daemon's responder writes, the client's loop
// over the frames it reads, and what the second makes of the first.
module Session {
  import opened Text
  import opened Bytes
  import opened Json
  import opened JsonBytes
  import opened JsonRoundTrip
  import opened Lines

  const MAX_REQUEST_FRAME_BYTES := 8 * 1024

  const MAX_RESPONSE_FRAME_BYTES := 256 * 1024

  datatype ErrorCode =
    | BadRequest | UnknownOp | SpaceNotFound | SpaceExists | ProfileNotFound | TemplateNotFound
    | SpaceRunning | SpaceStopped | NoBridge | AgentTimeout | WrongPassphrase | Internal

  predicate IsCapital(c: char) { 'A' <= c <= 'Z' }

  predicate IsLetter(c: char) { IsCapital(c) || 'a' <= c <= 'z' }

  function LowerCase(c: char): char { if IsCapital(c) then (c as int + 32) as char else c }

  function UpperCase(c: char): char { if 'a' <= c <= 'z' then (c as int - 32) as char else c }

  /** serde's `kebab-case`: a dash before every capital but the first, and lower case. */
  function Kebab(s: string, first: bool): string {
    if s == "" then ""
    else (if IsCapital(s[0]) && !first then ['-'] else []) + [LowerCase(s[0])] + Kebab(s[1..], false)
  }

  function VariantName(c: ErrorCode): string {
    match c
    case BadRequest => "BadRequest"
    case UnknownOp => "UnknownOp"
    case SpaceNotFound => "SpaceNotFound"
    case SpaceExists => "SpaceExists"
    case ProfileNotFound => "ProfileNotFound"
    case TemplateNotFound => "TemplateNotFound"
    case SpaceRunning => "SpaceRunning"
    case SpaceStopped => "SpaceStopped"
    case NoBridge => "NoBridge"
    case AgentTimeout => "AgentTimeout"
    case WrongPassphrase => "WrongPassphrase"
    case Internal => "Internal"
  }

  predicate IsVariant(s: string) { s != "" && IsCapital(s[0]) && forall i :: 0 <= i < |s| ==> IsLetter(s[i]) }

  lemma SpaceVariants()
    ensures IsVariant("SpaceNotFound") && IsVariant("SpaceExists") && IsVariant("SpaceRunning")
    ensures IsVariant("SpaceStopped") && IsVariant("ProfileNotFound") && IsVariant("TemplateNotFound")
  {
  }

  lemma OtherVariants()
    ensures IsVariant("BadRequest") && IsVariant("UnknownOp") && IsVariant("NoBridge")
    ensures IsVariant("AgentTimeout") && IsVariant("WrongPassphrase") && IsVariant("Internal")
  {
  }

  lemma VariantIsName(c: ErrorCode)
    ensures IsVariant(VariantName(c))
  {
    hide IsVariant;
    SpaceVariants();
    OtherVariants();
  }

  function CodeName(c: ErrorCode): bytes {
    VariantIsName(c);
    KebabIsPlain(VariantName(c), true);
    Ascii(Kebab(VariantName(c), true))
  }

  predicate IsPlain(s: string) { forall i :: 0 <= i < |s| ==> ' ' <= s[i] <= '~' }

  lemma {:induction false} KebabIsPlain(s: string, first: bool)
    requires forall i :: 0 <= i < |s| ==> IsLetter(s[i])
    ensures IsPlain(Kebab(s, first))
  {
    if s != "" { KebabIsPlain(s[1..], false); }
  }

  /** Back to a capitalised name. */
  function Camel(s: string, up: bool): string {
    if s == "" then ""
    else if s[0] == '-' then Camel(s[1..], true)
    else [if up then UpperCase(s[0]) else s[0]] + Camel(s[1..], false)
  }

  lemma CamelDash(t: string, up: bool)
    ensures Camel(['-'] + t, up) == Camel(t, true)
  {
    assert (['-'] + t)[1..] == t;
  }

  lemma CamelLetter(c: char, t: string, up: bool)
    requires c != '-'
    ensures Camel([c] + t, up) == [if up then UpperCase(c) else c] + Camel(t, false)
  {
    assert ([c] + t)[1..] == t;
  }

  lemma {:induction false} CamelOfKebab(s: string, first: bool)
    requires forall i :: 0 <= i < |s| ==> IsLetter(s[i])
    requires first ==> s != "" && IsCapital(s[0])
    ensures Camel(Kebab(s, first), first) == s
  {
    if s != "" {
      CamelOfKebab(s[1..], false);
      var more := Kebab(s[1..], false);
      CamelLetter(LowerCase(s[0]), more, first || IsCapital(s[0]));
      if IsCapital(s[0]) && !first {
        CamelDash([LowerCase(s[0])] + more, false);
        assert Kebab(s, first) == ['-'] + ([LowerCase(s[0])] + more);
      } else {
        assert Kebab(s, first) == [LowerCase(s[0])] + more;
      }
      assert s == [s[0]] + s[1..];
    }
  }

  /** The variant can be read off the name a failure travels under. */
  lemma CodeNameReadsBack(c: ErrorCode)
    ensures IsPlain(Kebab(VariantName(c), true)) && CodeName(c) == Ascii(Kebab(VariantName(c), true))
    ensures Camel(Kebab(VariantName(c), true), true) == VariantName(c)
  {
    hide VariantName;
    VariantIsName(c);
    KebabIsPlain(VariantName(c), true);
    CamelOfKebab(VariantName(c), true);
  }

  /** What an operation ends with on the daemon's side. */
  datatype Outcome = Success(data: Value) | Failure(code: ErrorCode, message: bytes)

  /** What the client gets. */
  datatype Reply = Ok(data: Value) | Err(code: bytes, message: bytes)

  function ReplyOf(o: Outcome): Reply {
    match o
    case Success(data) => Ok(data)
    case Failure(code, message) => Err(CodeName(code), message)
  }

  // ---- frames ----

  // serde_json keeps the members of an object sorted by key

  function ProgressFrame(message: bytes): Value {
    Obj(Field(Ascii("progress"), Str(message), NoFields))
  }

  function TerminalFrame(o: Outcome): Value {
    match o
    case Success(data) =>
      Obj(Field(Ascii("data"), data, Field(Ascii("ok"), Bool(true), NoFields)))
    case Failure(code, message) =>
      Obj(Field(Ascii("code"), Str(CodeName(code)), Field(Ascii("message"), Str(message),
        Field(Ascii("ok"), Bool(false), NoFields))))
  }

  function FrameLine(v: Value): bytes { Print(v) + [NEWLINE] }

  /** Everything the responder writes when it reports `messages` and then finishes with `o`. */
  function Transcript(messages: seq<bytes>, o: Outcome): bytes {
    if messages == [] then FrameLine(TerminalFrame(o))
    else FrameLine(ProgressFrame(messages[0])) + Transcript(messages[1..], o)
  }

  lemma {:induction false} PlainEscape(s: bytes)
    requires forall i :: 0 <= i < |s| ==> 32 <= s[i] && s[i] != QUOTE && s[i] != BACKSLASH
    ensures Escape(s) == s
  {
    if s != [] { PlainEscape(s[1..]); }
  }

  predicate IsWord(key: string) { forall i :: 0 <= i < |key| ==> 'a' <= key[i] <= 'z' }

  /** A key as it is written, with its colon. */
  function Key(key: string): bytes { if IsWord(key) then [QUOTE] + Ascii(key) + [QUOTE, COLON] else [] }

  lemma MemberText(key: string, v: Value, rest: Fields)
    requires IsWord(key)
    ensures PrintFields(Field(Ascii(key), v, rest)) ==
      Key(key) + Print(v) + (if rest.NoFields? then [CLOSE_OBJ] else [COMMA] + PrintFields(rest))
  {
    hide Ascii, Print;
    PlainEscape(Ascii(key));
  }

  lemma Words()
    ensures IsWord("progress") && IsWord("data") && IsWord("ok") && IsWord("code") && IsWord("message")
  {
  }

  /** The very bytes of a progress frame. */
  lemma ProgressText(message: bytes)
    ensures Print(ProgressFrame(message)) == [OPEN_OBJ] + (Key("progress") + PrintStr(message) + [CLOSE_OBJ])
  {
    hide Ascii, PrintFields, Key, IsWord;
    Words();
    MemberText("progress", Str(message), NoFields);
  }

  /** And of a terminal frame, member by member. */
  lemma SuccessText(data: Value)
    ensures Print(TerminalFrame(Success(data))) ==
      [OPEN_OBJ] + (Key("data") + Print(data) + ([COMMA] + (Key("ok") + TRUE + [CLOSE_OBJ])))
  {
    hide Ascii, PrintFields, Key, IsWord;
    Words();
    MemberText("ok", Bool(true), NoFields);
    MemberText("data", data, Field(Ascii("ok"), Bool(true), NoFields));
  }

  const TRUE: bytes := [116, 114, 117, 101]

  const FALSE: bytes := [102, 97, 108, 115, 101]

  lemma FailureText(code: ErrorCode, message: bytes)
    ensures Print(TerminalFrame(Failure(code, message))) ==
      [OPEN_OBJ] + (Key("code") + PrintStr(CodeName(code)) + ([COMMA] + (
        Key("message") + PrintStr(message) + ([COMMA] + (Key("ok") + FALSE + [CLOSE_OBJ])))))
  {
    hide Ascii, PrintFields, PrintStr, CodeName, Key, IsWord;
    Words();
    var last := Field(Ascii("ok"), Bool(false), NoFields);
    MemberText("ok", Bool(false), NoFields);
    MemberText("message", Str(message), last);
    MemberText("code", Str(CodeName(code)), Field(Ascii("message"), Str(message), last));
  }

  // ---- the client ----

  datatype Frame =
    | Progress(text: bytes)
    | Final(reply: Reply)
    | Malformed

  /** How the client reads one frame: `progress` is looked at first, then `ok`. */
  function ReadFrame(v: Value): Frame {
    match Get(v, Ascii("progress"))
    case Some(p) => if p.Str? then Progress(p.s) else Malformed
    case None => ReadTerminal(v)
  }

  function ReadTerminal(v: Value): Frame {
    match Get(v, Ascii("ok"))
    case None => Malformed
    case Some(ok) =>
      if !ok.Bool? then Malformed
      else if ok.b then Final(Ok(match Get(v, Ascii("data")) case Some(data) => data case None => Null))
      else
        match (Get(v, Ascii("code")), Get(v, Ascii("message")))
        case (Some(code), Some(message)) =>
          if code.Str? && message.Str? then Final(Err(code.s, message.s)) else Malformed
        case _ => Malformed
  }

  /** What a frame is to the client: `progress` makes it a message, whatever else it says, and without it `ok`
      makes it the reply; anything else is malformed. */
  lemma FrameIs(v: Value)
    ensures var f, progress, ok := ReadFrame(v), Get(v, Ascii("progress")), Get(v, Ascii("ok"));
      var code, message, data := Get(v, Ascii("code")), Get(v, Ascii("message")), Get(v, Ascii("data"));
      && (forall text :: f == Progress(text) <==> progress == Some(Str(text)))
      && (forall d :: f == Final(Ok(d)) <==>
            progress.None? && ok == Some(Bool(true)) && (data == Some(d) || (data.None? && d == Null)))
      && (forall c, m :: f == Final(Err(c, m)) <==>
            progress.None? && ok == Some(Bool(false)) && code == Some(Str(c)) && message == Some(Str(m)))
  {
    hide Get, Ascii;
  }

  /** `reply` is None when the exchange fails. */
  datatype Received = Received(reply: Option<Reply>, delivered: seq<bytes>, unread: bytes)

  function Receive(s: bytes): Received
    decreases |s|
  {
    var (read, rest) := ReadLine(s, MAX_RESPONSE_FRAME_BYTES);
    if !read.Line? then Received(None, [], rest)
    else
      match Parse(read.text)
      case None => Received(None, [], rest)
      case Some(v) =>
        match ReadFrame(v)
        case Progress(text) => Deliver(text, Receive(rest))
        case Final(reply) => Received(Some(reply), [], rest)
        case Malformed => Received(None, [], rest)
  }

  function Deliver(text: bytes, r: Received): Received { r.(delivered := [text] + r.delivered) }

  predicate Failed(r: Received) { r.reply.None? && r.delivered == [] }

  // ---- one frame ----

  /** A frame the line reader and the parser both let through. */
  predicate Fits(v: Value) {
    !HasDelete(v) && |Print(v)| + 1 <= 262144 && Depth(v) < RECURSION_LIMIT
  }

  lemma PassableIff(v: Value, limit: nat)
    requires Holds(v)
    ensures NEWLINE !in Print(v)
    ensures Passable(Print(v), limit) <==> !HasDelete(v) && |Print(v)| + 1 <= limit
  {
    PrintBytes(v);
    var p := Print(v);
    assert Printed(p, HasDelete(v));
    assert forall b :: b in p ==> b >= 32;
  }

  predicate Sendable(o: Outcome) {
    match o
    case Success(data) => Holds(data)
    case Failure(_, message) => ValidUtf8(message)
  }

  lemma PlainAscii(s: string)
    requires forall i :: 0 <= i < |s| ==> ' ' <= s[i] <= '~'
    ensures ValidUtf8(Ascii(s)) && DELETE !in Ascii(s)
  {
    AsciiIsUtf8(Ascii(s));
  }

  lemma CodeNameBytes(c: ErrorCode)
    ensures ValidUtf8(CodeName(c)) && DELETE !in CodeName(c)
  {
    hide ValidUtf8, VariantName;
    VariantIsName(c);
    KebabIsPlain(VariantName(c), true);
    PlainAscii(Kebab(VariantName(c), true));
  }

  lemma ProgressFrameHolds(message: bytes)
    requires ValidUtf8(message)
    ensures Holds(ProgressFrame(message))
    ensures ReadFrame(ProgressFrame(message)) == Progress(message)
    ensures HasDelete(ProgressFrame(message)) <==> DELETE in message
  {
    hide ValidUtf8;
    PlainAscii("progress");
    MemberHolds(Ascii("progress"), Str(message), NoFields);
  }

  lemma MemberHolds(key: bytes, v: Value, rest: Fields)
    requires ValidUtf8(key) && Holds(v) && HoldsFields(rest) && (rest.Field? ==> LexLess(key, rest.key))
    ensures HoldsFields(Field(key, v, rest)) && Holds(Obj(Field(key, v, rest)))
    ensures HasDeleteFields(Field(key, v, rest)) <==> DELETE in key || HasDelete(v) || HasDeleteFields(rest)
    ensures HasDelete(Obj(rest)) <==> HasDeleteFields(rest)
  {
    assert Obj(Field(key, v, rest)).fields == Field(key, v, rest);
  }

  lemma KeyOrder()
    ensures LexLess(Ascii("code"), Ascii("message")) && LexLess(Ascii("message"), Ascii("ok"))
    ensures LexLess(Ascii("data"), Ascii("ok"))
    ensures Ascii("progress")[0] == 112 && Ascii("code")[0] == 99 && Ascii("data")[0] == 100
    ensures Ascii("message")[0] == 109 && Ascii("ok")[0] == 111
  {
  }

  lemma TerminalFrameHolds(o: Outcome)
    requires Sendable(o)
    ensures Holds(TerminalFrame(o))
    ensures ReadFrame(TerminalFrame(o)) == Final(ReplyOf(o))
  {
    hide ValidUtf8, LexLess, CodeName;
    KeyOrder();
    PlainAscii("code");
    PlainAscii("message");
    PlainAscii("ok");
    PlainAscii("data");
    var last := Field(Ascii("ok"), Bool(o.Success?), NoFields);
    MemberHolds(Ascii("ok"), Bool(o.Success?), NoFields);
    if o.Success? {
      MemberHolds(Ascii("data"), o.data, last);
    } else {
      CodeNameBytes(o.code);
      MemberHolds(Ascii("message"), Str(o.message), last);
      MemberHolds(Ascii("code"), Str(CodeName(o.code)), Field(Ascii("message"), Str(o.message), last));
    }
    TerminalFrameRead(o);
  }

  lemma LookupMember(key: bytes, v: Value, rest: Fields, wanted: bytes)
    ensures Lookup(Field(key, v, rest), wanted) == if key == wanted then Some(v) else Lookup(rest, wanted)
    ensures Lookup(NoFields, wanted) == None
  {
  }

  /** Looking a key up in the terminal frame, member by member. */
  lemma TerminalLookup(o: Outcome, key: bytes)
    ensures Get(TerminalFrame(o), key) ==
      if o.Success? then
        if Ascii("data") == key then Some(o.data) else if Ascii("ok") == key then Some(Bool(true)) else None
      else
        if Ascii("code") == key then Some(Str(CodeName(o.code)))
        else if Ascii("message") == key then Some(Str(o.message))
        else if Ascii("ok") == key then Some(Bool(false)) else None
  {
    hide Lookup, CodeName;
    var last := Field(Ascii("ok"), Bool(o.Success?), NoFields);
    LookupMember(Ascii("ok"), Bool(o.Success?), NoFields, key);
    if o.Success? {
      LookupMember(Ascii("data"), o.data, last, key);
    } else {
      LookupMember(Ascii("message"), Str(o.message), last, key);
      LookupMember(Ascii("code"), Str(CodeName(o.code)), Field(Ascii("message"), Str(o.message), last), key);
    }
  }

  lemma TerminalFrameRead(o: Outcome)
    ensures ReadFrame(TerminalFrame(o)) == Final(ReplyOf(o))
  {
    hide Get, TerminalFrame, LexLess, CodeName;
    KeyOrder();
    TerminalLookup(o, Ascii("progress"));
    TerminalLookup(o, Ascii("ok"));
    TerminalLookup(o, Ascii("data"));
    TerminalLookup(o, Ascii("code"));
    TerminalLookup(o, Ascii("message"));
  }

  /** The bytes of a frame reach the client as that frame, or stop the exchange on the spot when it does not fit. */
  lemma ReceiveFrame(v: Value, rest: bytes)
    requires Holds(v)
    ensures var r := Receive(FrameLine(v) + rest);
      if !Fits(v) then Failed(r)
      else if ReadFrame(v).Progress? then r == Deliver(ReadFrame(v).text, Receive(rest))
      else if ReadFrame(v).Final? then r == Received(Some(ReadFrame(v).reply), [], rest)
      else Failed(r)
  {
    hide ReadFrame, Parse, ReadLine, Passable, Print, Depth, HasDelete;
    var s := FrameLine(v) + rest;
    PassableIff(v, MAX_RESPONSE_FRAME_BYTES);
    RoundTrip(v);
    if Passable(Print(v), MAX_RESPONSE_FRAME_BYTES) {
      LineIff(s, MAX_RESPONSE_FRAME_BYTES, Print(v), rest);
    } else {
      UnpassableLine(Print(v), rest, MAX_RESPONSE_FRAME_BYTES);
    }
  }

  // ---- whole sessions ----

  predicate AllUtf8(messages: seq<bytes>) { forall m :: m in messages ==> ValidUtf8(m) }

  predicate SessionFits(messages: seq<bytes>, o: Outcome) {
    (forall m :: m in messages ==> Fits(ProgressFrame(m))) && Fits(TerminalFrame(o))
  }

  /** The messages before the first one whose frame does not fit. */
  function FittingPrefix(messages: seq<bytes>): (r: seq<bytes>)
    ensures r <= messages
    ensures |r| < |messages| ==> !Fits(ProgressFrame(messages[|r|]))
    ensures forall m :: m in r ==> Fits(ProgressFrame(m))
  {
    if messages == [] || !Fits(ProgressFrame(messages[0])) then []
    else [messages[0]] + FittingPrefix(messages[1..])
  }

  /**
   * The client gets every message in order, then the outcome, and leaves what follows unread, exactly
   * when all frames fit; otherwise it fails, having delivered the messages before the first bad frame.
   */
  lemma {:induction false} SessionRoundTrip(messages: seq<bytes>, o: Outcome, rest: bytes)
    requires AllUtf8(messages) && Sendable(o)
    ensures var r := Receive(Transcript(messages, o) + rest);
      if SessionFits(messages, o) then r == Received(Some(ReplyOf(o)), messages, rest)
      else r.reply.None? && r.delivered == FittingPrefix(messages)
  {
    hide Fits, ReadFrame, Receive, ProgressFrame, TerminalFrame, Holds, ValidUtf8, ReplyOf, FrameLine;
    if messages == [] {
      TerminalFrameHolds(o);
      ReceiveFrame(TerminalFrame(o), rest);
    } else {
      var more := messages[1..];
      ProgressFrameHolds(messages[0]);
      assert Transcript(messages, o) + rest == FrameLine(ProgressFrame(messages[0])) + (Transcript(more, o) + rest);
      ReceiveFrame(ProgressFrame(messages[0]), Transcript(more, o) + rest);
      SessionRoundTrip(more, o, rest);
      assert messages == [messages[0]] + more;
    }
  }

  lemma CutFrame(v: Value, p: bytes)
    requires Holds(v) && p < FrameLine(v)
    ensures Failed(Receive(p))
  {
    hide ReadLine, Print, Parse, ReadFrame, Holds;
    PassableIff(v, 0);
    assert p <= Print(v) by { assert p == FrameLine(v)[..|p|] == Print(v)[..|p|]; }
    assert NEWLINE !in p;
    if ReadLine(p, MAX_RESPONSE_FRAME_BYTES).0.Line? {
      LineHasNewline(p, MAX_RESPONSE_FRAME_BYTES);
    }
  }

  /** A connection cut anywhere before the last byte fails the exchange, having delivered a prefix of the messages. */
  lemma {:induction false} CutSession(messages: seq<bytes>, o: Outcome, p: bytes)
    requires AllUtf8(messages) && Sendable(o)
    requires p < Transcript(messages, o)
    ensures Receive(p).reply.None? && Receive(p).delivered <= messages
  {
    hide Fits, ReadFrame, Receive, ProgressFrame, TerminalFrame, Holds, ValidUtf8, ReplyOf, FrameLine;
    if messages == [] {
      TerminalFrameHolds(o);
      CutFrame(TerminalFrame(o), p);
    } else {
      var line, more := FrameLine(ProgressFrame(messages[0])), Transcript(messages[1..], o);
      ProgressFrameHolds(messages[0]);
      assert Transcript(messages, o) == line + more;
      if |p| < |line| {
        assert p == (line + more)[..|p|] == line[..|p|];
        CutFrame(ProgressFrame(messages[0]), p);
      } else {
        var q := p[|line|..];
        assert q == (line + more)[|line|..|p|] == more[..|q|];
        assert p == line + q;
        CutSession(messages[1..], o, q);
        ReceiveFrame(ProgressFrame(messages[0]), q);
      }
    }
  }

  // ---- requests ----

  /** A request goes on to its typed parse, or is refused. */
  datatype Request = Admitted(value: Value) | Refused(code: ErrorCode)

  function KnownOps(): seq<bytes> {
    [Ascii("list"), Ascii("describe"), Ascii("build"), Ascii("create"), Ascii("start"), Ascii("stop"),
     Ascii("open-window"), Ascii("reset-system"), Ascii("reset-all"), Ascii("update-image"), Ascii("destroy"),
     Ascii("net-status"), Ascii("profiles")]
  }

  predicate NamesKnownOp(v: Value) {
    && Get(v, Ascii("op")).Some? && Get(v, Ascii("op")).value.Str? && Get(v, Ascii("op")).value.s in KnownOps()
  }

  /** The operation is looked up in the closed list before anything else is made of the request. */
  function Admission(s: bytes): (Request, bytes) {
    var (read, rest) := ReadLine(s, MAX_REQUEST_FRAME_BYTES);
    if !read.Line? then (Refused(BadRequest), rest)
    else
      match Parse(read.text)
      case None => (Refused(BadRequest), rest)
      case Some(v) => (if NamesKnownOp(v) then Admitted(v) else Refused(UnknownOp), rest)
  }

  /** The daemon gets the request the client wrote if its line fits, and admits it if it knows the operation;
      what does not fit is a bad request. */
  lemma RequestArrives(request: Value, rest: bytes)
    requires Holds(request)
    ensures var (r, unread) := Admission(FrameLine(request) + rest);
      if !HasDelete(request) && |Print(request)| + 1 <= 8192 && Depth(request) < RECURSION_LIMIT
      then unread == rest && r == if NamesKnownOp(request) then Admitted(request) else Refused(UnknownOp)
      else r == Refused(BadRequest)
  {
    hide Parse, ReadLine, Passable, Print, Depth, HasDelete, NamesKnownOp;
    PassableIff(request, MAX_REQUEST_FRAME_BYTES);
    RoundTrip(request);
    if Passable(Print(request), MAX_REQUEST_FRAME_BYTES) {
      LineIff(FrameLine(request) + rest, MAX_REQUEST_FRAME_BYTES, Print(request), rest);
    } else {
      UnpassableLine(Print(request), rest, MAX_REQUEST_FRAME_BYTES);
    }
  }

  method ReadRequest(reader: Reader) returns (r: Request)
    modifies reader
    ensures (r, reader.unread) == Admission(old(reader.unread))
  {
    hide Parse, ReadLine, NamesKnownOp;
    var read := reader.ReadCappedLine(MAX_REQUEST_FRAME_BYTES);
    if !read.Line? { return Refused(BadRequest); }
    var parsed := Parse(read.text);
    if parsed.None? { return Refused(BadRequest); }
    if !NamesKnownOp(parsed.value) { return Refused(UnknownOp); }
    r := Admitted(parsed.value);
  }

  // ---- the code that writes and reads ----

  function Min(a: nat, b: nat): nat { if a < b then a else b }

  /** Writes one frame per line; the peer may take only `room` bytes before writing fails. */
  class Responder {
    var written: bytes
    var finished: bool

    constructor ()
      ensures written == [] && !finished
    {
      written, finished := [], false;
    }

    method WriteLine(v: Value, room: nat) returns (ok: bool)
      modifies this`written
      ensures ok == (|FrameLine(v)| <= room)
      ensures written == old(written) + FrameLine(v)[..Min(room, |FrameLine(v)|)]
    {
      var line := FrameLine(v);
      written := written + line[..Min(room, |line|)];
      ok := |line| <= room;
    }

    method Progress(message: bytes, room: nat) returns (ok: bool)
      requires !finished
      modifies this
      ensures !finished
      ensures var line := FrameLine(ProgressFrame(message));
        ok == (|line| <= room) && written == old(written) + line[..Min(room, |line|)]
    {
      ok := WriteLine(ProgressFrame(message), room);
    }

    method Finish(o: Outcome, room: nat) returns (ok: bool)
      requires !finished
      modifies this
      ensures finished
      ensures var line := FrameLine(TerminalFrame(o));
        ok == (|line| <= room) && written == old(written) + line[..Min(room, |line|)]
    {
      finished := true;
      ok := WriteLine(TerminalFrame(o), room);
    }
  }

  /** The client's end: `sent` is what it wrote, `delivered` what it handed to the progress callback. */
  class Client {
    const reader: Reader
    var sent: bytes
    var delivered: seq<bytes>

    constructor (reader: Reader)
      ensures this.reader == reader && sent == [] && delivered == []
    {
      this.reader, sent, delivered := reader, [], [];
    }

    method Exchange(request: Value, room: nat) returns (reply: Option<Reply>)
      modifies this, reader
      ensures sent == old(sent) + FrameLine(request)[..Min(room, |FrameLine(request)|)]
      ensures if |FrameLine(request)| <= room
        then
          var r := Receive(old(reader.unread));
          reply == r.reply && delivered == old(delivered) + r.delivered && reader.unread == r.unread
        else reply.None? && delivered == old(delivered) && reader.unread == old(reader.unread)
    {
      hide Parse, ReadLine, FrameLine, ReadFrame;
      var line := FrameLine(request);
      sent := sent + line[..Min(room, |line|)];
      if room < |line| {
        return None;
      }
      ghost var whole := Receive(reader.unread);
      ghost var before := delivered;
      while true
        invariant sent == old(sent) + line
        invariant before <= delivered
        invariant var r := Receive(reader.unread);
          whole == Received(r.reply, delivered[|before|..] + r.delivered, r.unread)
        decreases |reader.unread|
      {
        var read := reader.ReadCappedLine(MAX_RESPONSE_FRAME_BYTES);
        if !read.Line? {
          return None;
        }
        var parsed := Parse(read.text);
        if parsed.None? {
          return None;
        }
        match ReadFrame(parsed.value)
        case Progress(text) =>
          delivered := delivered + [text];
        case Final(r) =>
          return Some(r);
        case Malformed =>
          return None;
      }
    }
  }

  /** Of the bytes written so far the peer has taken the first `room`, and so after one more line. */
  lemma TakesOn(done: bytes, line: bytes, more: bytes, room: nat)
    ensures var whole := done + line + more; var taken := whole[..Min(room, |done|)];
      && |taken| <= room
      && taken + line[..Min(room - |taken|, |line|)] == whole[..Min(room, |done + line|)]
  {
    var whole := done + line + more;
    if room < |done| {
      assert line[..0] == [];
    } else {
      assert whole[..|done|] == done;
      assert whole[..Min(room, |done + line|)] == (done + line)[..Min(room, |done + line|)];
    }
  }

  lemma TranscriptStep(messages: seq<bytes>, i: nat, o: Outcome)
    requires i <= |messages|
    ensures Transcript(messages[i..], o) ==
      if i < |messages| then FrameLine(ProgressFrame(messages[i])) + Transcript(messages[i + 1..], o)
      else FrameLine(TerminalFrame(o))
  {
    if i < |messages| { assert messages[i..][1..] == messages[i + 1..]; }
  }

  lemma Regroup(a: bytes, b: bytes, c: bytes)
    ensures a + (b + c) == a + b + c && b + [] == b
  {
  }

  lemma Begun(messages: seq<bytes>, o: Outcome, room: nat)
    ensures Transcript(messages, o) == [] + Transcript(messages[0..], o)
    ensures Transcript(messages, o)[..Min(room, 0)] == []
  {
    assert messages[0..] == messages;
  }

  /** The daemon reports `messages` and finishes with `o`, whether or not its writes work; the peer takes
      `room` bytes in all. */
  method Respond(messages: seq<bytes>, o: Outcome, room: nat) returns (responder: Responder)
    ensures fresh(responder) && responder.finished
    ensures responder.written == Transcript(messages, o)[..Min(room, |Transcript(messages, o)|)]
  {
    hide FrameLine, ProgressFrame, TerminalFrame, Transcript;
    ghost var done: bytes := [];
    responder := new Responder();
    Begun(messages, o, room);
    for i := 0 to |messages|
      invariant fresh(responder) && !responder.finished
      invariant Transcript(messages, o) == done + Transcript(messages[i..], o)
      invariant |responder.written| <= room
      invariant responder.written == Transcript(messages, o)[..Min(room, |done|)]
    {
      ghost var line := FrameLine(ProgressFrame(messages[i]));
      TranscriptStep(messages, i, o);
      Regroup(done, line, Transcript(messages[i + 1..], o));
      TakesOn(done, line, Transcript(messages[i + 1..], o), room);
      var _ := responder.Progress(messages[i], room - |responder.written|);
      done := done + line;
    }
    TranscriptStep(messages, |messages|, o);
    TakesOn(done, FrameLine(TerminalFrame(o)), [], room);
    Regroup(done, FrameLine(TerminalFrame(o)), []);
    var _ := responder.Finish(o, room - |responder.written|);
  }

  /**
   * A whole exchange, both ends run against each other: when the daemon's bytes all get through and every
   * frame fits, the client gets every message in order and the outcome; otherwise it fails, having
   * delivered the messages before the first frame that does not fit, or before the cut.
   */
  method Converse(request: Value, messages: seq<bytes>, o: Outcome, room: nat)
    returns (reply: Option<Reply>, delivered: seq<bytes>)
    requires AllUtf8(messages) && Sendable(o)
    ensures
      if |Transcript(messages, o)| <= room
      then
        if SessionFits(messages, o) then reply == Some(ReplyOf(o)) && delivered == messages
        else reply.None? && delivered == FittingPrefix(messages)
      else reply.None? && delivered <= messages
  {
    hide Receive, Transcript, FrameLine, SessionFits, FittingPrefix, AllUtf8, Sendable, ReplyOf;
    var responder := Respond(messages, o, room);
    var reader := new Reader(responder.written);
    var client := new Client(reader);
    reply := client.Exchange(request, |FrameLine(request)|);
    delivered := client.delivered;
    ghost var whole := Transcript(messages, o);
    if |whole| <= room {
      assert responder.written == whole + [];
      SessionRoundTrip(messages, o, []);
    } else {
      CutSession(messages, o, responder.written);
    }
  }
}
