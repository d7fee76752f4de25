// The bridge ruleset the daemon generates, as text, and what that text means: a small reading of the
// nftables syntax it uses, evaluated rule by rule, first match wins.
module Nft {
  import opened Text
  import opened Addresses
  import opened Registry

  const MAX_CID: nat := 255

  // ---- rendering ----

  /** One line of the file: how far it is indented, and its words. */
  datatype Line = Line(tabs: nat, words: seq<string>)

  function Join(words: seq<string>): string {
    if words == [] then ""
    else if |words| == 1 then words[0]
    else words[0] + [' '] + Join(words[1..])
  }

  function Tabs(n: nat): string { if n == 0 then "" else ['\t'] + Tabs(n - 1) }

  function LineText(l: Line): string { Tabs(l.tabs) + Join(l.words) + ['\n'] }

  function FileText(lines: seq<Line>): string {
    if lines == [] then "" else LineText(lines[0]) + FileText(lines[1..])
  }

  function Quoted(s: string): string { ['"'] + s + ['"'] }

  const BLANK := Line(0, [])

  const META_RULE := ["meta", "ibrname", "!=", Quoted("br-spaces"), "accept"]

  const ROUTER_RULE := ["iifname", Quoted("tap-spaces"), "accept"]

  const TYPE_LINE := ["type", "filter", "hook", "forward", "priority", "filter;", "policy", "accept;"]

  const HOST_TYPE_LINE := ["type", "filter", "hook", "input", "priority", "filter;", "policy", "accept;"]

  const DROP_RULE := ["counter", "drop"]

  const HEADER: seq<Line> := [
    Line(0, ["#!/usr/sbin/nft", "-f"]),
    Line(0, ["#", "anti-spoofing"]),
    Line(0, ["add", "table", "bridge", "miyori"]),
    Line(0, ["flush", "table", "bridge", "miyori"]),
    BLANK,
    Line(0, ["table", "bridge", "miyori", "{"])]

  const CHAIN_OPEN: seq<Line> := [
    Line(1, ["chain", "spaces", "{"]),
    Line(2, TYPE_LINE),
    BLANK,
    Line(2, ["#", "other", "bridges"])]

  const CHAIN_FIRST: seq<Line> := [
    Line(2, META_RULE),
    BLANK,
    Line(2, ROUTER_RULE),
    BLANK]

  const CHAIN_TAIL: seq<Line> := [
    BLANK,
    Line(2, ["#", "everything", "else"]),
    Line(2, ["drop"]),
    Line(1, ["}"])]

  const HOST_OPEN: seq<Line> := [
    BLANK,
    Line(1, ["#", "frames", "to", "the", "host"]),
    Line(1, ["chain", "to-host", "{"]),
    Line(2, HOST_TYPE_LINE)]

  const HOST_RULES: seq<Line> := [
    Line(2, META_RULE),
    Line(2, DROP_RULE),
    Line(1, ["}"]),
    Line(0, ["}"])]

  function IpRule(cid: nat): seq<string> {
    ["iifname", Quoted(SpaceTap(cid)), "ether", "saddr", SpaceMac(cid), "ip", "saddr", SpaceIpv4(cid), "accept"]
  }

  function ArpRule(cid: nat): seq<string> {
    ["iifname", Quoted(SpaceTap(cid)), "ether", "saddr", SpaceMac(cid), "arp", "saddr", "ip", SpaceIpv4(cid), "accept"]
  }

  function RuleLines(spaces: seq<Entry>): seq<Line> {
    if spaces == [] then []
    else [Line(2, IpRule(spaces[0].cid)), Line(2, ArpRule(spaces[0].cid))] + RuleLines(spaces[1..])
  }

  /** The file for a sorted list of spaces. */
  function RulesetText(spaces: seq<Entry>): string {
    FileText(HEADER) + FileText(CHAIN_OPEN) + FileText(CHAIN_FIRST) + FileText(RuleLines(spaces))
    + FileText(CHAIN_TAIL) + FileText(HOST_OPEN) + FileText(HOST_RULES)
  }

  datatype Rendering = Ruleset(text: string) | CidTooLarge(cid: nat)

  method Push(out: string, lines: seq<Line>) returns (r: string)
    ensures r == out + FileText(lines)
  {
    hide LineText;
    r := out;
    for i := 0 to |lines|
      invariant r + FileText(lines[i..]) == out + FileText(lines)
    {
      assert lines[i..][0] == lines[i] && lines[i..][1..] == lines[i + 1..];
      assert r + (LineText(lines[i]) + FileText(lines[i + 1..])) == r + LineText(lines[i]) + FileText(lines[i + 1..]);
      r := r + LineText(lines[i]);
    }
  }

  /** Refuses the first cid above 255, otherwise writes the rules in the order of cids. */
  method RenderNft(entries: seq<Entry>) returns (r: Rendering)
    ensures r.CidTooLarge? <==> exists e :: e in entries && e.id != MIYORI_NET && e.cid > 255
    ensures r.Ruleset? ==> r.text == RulesetText(Sort(Spaces(entries)))
    ensures r.CidTooLarge? ==> FirstTooLarge(Spaces(entries), r.cid)
  {
    hide Sort, Spaces, LineText, FileText, IpRule, ArpRule, HEADER, CHAIN_OPEN, CHAIN_FIRST, CHAIN_TAIL,
      HOST_OPEN, HOST_RULES;
    var spaces := Spaces(entries);
    for i := 0 to |spaces|
      invariant forall j :: 0 <= j < i ==> spaces[j].cid <= MAX_CID
    {
      if spaces[i].cid > MAX_CID {
        assert spaces[i] in spaces;
        return CidTooLarge(spaces[i].cid);
      }
    }
    spaces := Sort(spaces);
    var out := Push("", HEADER);
    out := Push(out, CHAIN_OPEN);
    out := Push(out, CHAIN_FIRST);
    ghost var head := out;
    ghost var rules := FileText(RuleLines(spaces));
    for i := 0 to |spaces|
      invariant out + FileText(RuleLines(spaces[i..])) == head + rules
    {
      var cid := spaces[i].cid;
      assert spaces[i..][1..] == spaces[i + 1..];
      var lines := [Line(2, IpRule(cid)), Line(2, ArpRule(cid))];
      FileTextConcat(lines, RuleLines(spaces[i + 1..]));
      out := Push(out, lines);
    }
    NoRules(spaces[|spaces|..]);
    assert out + "" == out && head == FileText(HEADER) + FileText(CHAIN_OPEN) + FileText(CHAIN_FIRST);
    out := Push(out, CHAIN_TAIL);
    out := Push(out, HOST_OPEN);
    out := Push(out, HOST_RULES);
    return Ruleset(out);
  }

  predicate FirstTooLarge(spaces: seq<Entry>, cid: nat) {
    exists i :: 0 <= i < |spaces| && spaces[i].cid == cid && cid > 255
      && (forall j :: 0 <= j < i ==> spaces[j].cid <= 255)
  }

  lemma NoRules(spaces: seq<Entry>)
    requires spaces == []
    ensures FileText(RuleLines(spaces)) == ""
  {
  }

  lemma {:induction false} FileTextConcat(a: seq<Line>, b: seq<Line>)
    ensures FileText(a + b) == FileText(a) + FileText(b)
  {
    hide LineText;
    if a == [] {
      assert a + b == b;
    } else {
      FileTextConcat(a[1..], b);
      assert (a + b)[1..] == a[1..] + b;
    }
  }

  // ---- reading the file ----

  predicate IsBlank(c: char) { c == ' ' || c == '\t' }

  function WordEnd(s: string): (n: nat)
    ensures n <= |s|
  {
    if s == [] || IsBlank(s[0]) then 0 else 1 + WordEnd(s[1..])
  }

  function Words(s: string): seq<string>
    decreases |s|
  {
    if s == [] then []
    else if IsBlank(s[0]) then Words(s[1..])
    else [s[..WordEnd(s)]] + Words(s[WordEnd(s)..])
  }

  /** Blank lines and comments say nothing. */
  predicate Silent(words: seq<string>) { words == [] || (words[0] != [] && words[0][0] == '#') }

  function Statements(lines: seq<string>): seq<seq<string>> {
    if lines == [] then []
    else
      var words := Words(lines[0]);
      (if Silent(words) then [] else [words]) + Statements(lines[1..])
  }

  function Program(text: string): seq<seq<string>> { Statements(SplitOn(text, '\n')) }

  /** The rules of a chain: what stands between its opening line and the next closing brace. */
  function ChainOf(program: seq<seq<string>>, name: string): seq<seq<string>> {
    if program == [] then []
    else if program[0] == ["chain", name, "{"] then UpToBrace(program[1..])
    else ChainOf(program[1..], name)
  }

  function UpToBrace(program: seq<seq<string>>): seq<seq<string>> {
    if program == [] || program[0] == ["}"] then [] else [program[0]] + UpToBrace(program[1..])
  }

  // ---- what the rules do to a frame ----

  datatype Payload = Ipv4(source: seq<nat>) | Arp(source: seq<nat>) | Other

  datatype Frame = Frame(bridge: string, port: string, mac: seq<nat>, payload: Payload)

  datatype Verdict = Accept | Drop

  /** A rule is a list of matches and a verdict at the end; it decides only when all of them hold. */
  function RuleVerdict(words: seq<string>, f: Frame): Option<Verdict> {
    if words == ["accept"] then Some(Accept)
    else if words == ["drop"] then Some(Drop)
    else if |words| >= 1 && words[0] == "counter" then RuleVerdict(words[1..], f)
    else if |words| >= 2 && words[0] == "iifname" then
      if words[1] == Quoted(f.port) then RuleVerdict(words[2..], f) else None
    else if |words| >= 4 && words[..3] == ["meta", "ibrname", "!="] then
      if words[3] != Quoted(f.bridge) then RuleVerdict(words[4..], f) else None
    else if |words| >= 3 && words[..2] == ["ether", "saddr"] then
      if ReadMac(words[2]) == Some(f.mac) then RuleVerdict(words[3..], f) else None
    else if |words| >= 3 && words[..2] == ["ip", "saddr"] then
      if f.payload.Ipv4? && ReadIp(words[2]) == Some(f.payload.source) then RuleVerdict(words[3..], f) else None
    else if |words| >= 4 && words[..3] == ["arp", "saddr", "ip"] then
      if f.payload.Arp? && ReadIp(words[3]) == Some(f.payload.source) then RuleVerdict(words[4..], f) else None
    else None
  }

  /** First match wins; the chain's policy, declared by its `type` line, is to accept. */
  function Evaluate(rules: seq<seq<string>>, f: Frame): Verdict {
    if rules == [] then Accept
    else
      match RuleVerdict(rules[0], f)
      case Some(v) => v
      case None => Evaluate(rules[1..], f)
  }

  predicate Forwards(text: string, f: Frame) { Evaluate(ChainOf(Program(text), "spaces"), f) == Accept }

  // ---- from text back to words ----

  /** A word that reading gives back as it was written. */
  predicate Plain(w: string) {
    w != [] && forall i :: 0 <= i < |w| ==> w[i] != ' ' && w[i] != '\t' && w[i] != '\n'
  }

  predicate PlainLine(l: Line) { forall w :: w in l.words ==> Plain(w) }

  lemma {:induction false} WordEndOf(w: string, rest: string)
    requires Plain(w) && (rest == [] || IsBlank(rest[0]))
    ensures WordEnd(w + rest) == |w|
  {
    if |w| == 1 {
      assert (w + rest)[1..] == rest;
    } else {
      WordEndOf(w[1..], rest);
      assert (w + rest)[1..] == w[1..] + rest;
    }
  }

  lemma FirstWord(w: string, rest: string)
    requires Plain(w) && (rest == [] || IsBlank(rest[0]))
    ensures Words(w + rest) == [w] + Words(rest)
  {
    WordEndOf(w, rest);
    assert (w + rest)[..|w|] == w && (w + rest)[|w|..] == rest;
  }

  lemma {:induction false} WordsOfJoin(words: seq<string>)
    requires forall w :: w in words ==> Plain(w)
    ensures Words(Join(words)) == words && '\n' !in Join(words)
  {
    WordsOfBlank("");
    hide Words, WordEnd;
    if |words| == 1 {
      FirstWord(words[0], "");
      assert words[0] + "" == words[0];
    } else if words != [] {
      var rest := Join(words[1..]);
      WordsOfJoin(words[1..]);
      FirstWord(words[0], [' '] + rest);
      WordsOfBlank(rest);
      assert Join(words) == words[0] + ([' '] + rest);
      assert [words[0]] + words[1..] == words;
    }
  }

  lemma WordsOfBlank(rest: string)
    ensures Words([' '] + rest) == Words(rest) && Words("") == []
  {
    assert ([' '] + rest)[1..] == rest;
  }

  lemma {:induction false} WordsOfLine(l: Line)
    requires PlainLine(l)
    ensures Words(Tabs(l.tabs) + Join(l.words)) == l.words && '\n' !in Tabs(l.tabs) + Join(l.words)
    decreases l.tabs
  {
    var text := Join(l.words);
    if l.tabs == 0 {
      WordsOfJoin(l.words);
      assert Tabs(0) + text == text;
    } else {
      WordsOfLine(l.(tabs := l.tabs - 1));
      assert Tabs(l.tabs) + text == ['\t'] + (Tabs(l.tabs - 1) + text);
    }
  }

  /** The statements a list of lines makes, by its words. */
  function Spoken(lines: seq<Line>): seq<seq<string>> {
    if lines == [] then []
    else (if Silent(lines[0].words) then [] else [lines[0].words]) + Spoken(lines[1..])
  }

  lemma ProgramLine(l: Line, rest: string)
    requires PlainLine(l)
    ensures Program(LineText(l) + rest) == (if Silent(l.words) then [] else [l.words]) + Program(rest)
  {
    hide Words, SplitOn;
    WordsOfLine(l);
    var text := Tabs(l.tabs) + Join(l.words);
    SplitPiece(text, rest, '\n');
    assert LineText(l) + rest == text + ['\n'] + rest;
    assert ([text] + SplitOn(rest, '\n'))[1..] == SplitOn(rest, '\n');
  }

  lemma {:induction false} ProgramOf(lines: seq<Line>, rest: string)
    requires forall l :: l in lines ==> PlainLine(l)
    ensures Program(FileText(lines) + rest) == Spoken(lines) + Program(rest)
  {
    hide Program, LineText, PlainLine, Silent;
    if lines == [] {
      assert FileText(lines) + rest == rest;
    } else {
      ProgramOf(lines[1..], rest);
      ProgramLine(lines[0], FileText(lines[1..]) + rest);
      assert FileText(lines) + rest == LineText(lines[0]) + (FileText(lines[1..]) + rest);
    }
  }

  // ---- the meaning of the generated chain ----

  function Rules(spaces: seq<Entry>): seq<seq<string>> {
    if spaces == [] then [] else [IpRule(spaces[0].cid), ArpRule(spaces[0].cid)] + Rules(spaces[1..])
  }

  /** The frame comes from the port of space `cid` and claims exactly the addresses derived from it. */
  predicate Honest(cid: nat, f: Frame) {
    && f.port == SpaceTap(cid) && f.mac == Mac(cid)
    && match f.payload
       case Ipv4(source) => source == Ip(cid)
       case Arp(source) => source == Ip(cid)
       case Other => false
  }

  lemma QuotedInjective(a: string, b: string)
    ensures Quoted(a) == Quoted(b) <==> a == b
  {
    if Quoted(a) == Quoted(b) {
      assert a == Quoted(a)[1..|Quoted(a)| - 1] == Quoted(b)[1..|Quoted(b)| - 1] == b;
    }
  }

  lemma AcceptVerdict(f: Frame)
    ensures RuleVerdict(["accept"], f) == Some(Accept) && RuleVerdict(["drop"], f) == Some(Drop)
  {
  }

  lemma IifnameVerdict(port: string, rest: seq<string>, f: Frame)
    ensures RuleVerdict(["iifname", Quoted(port)] + rest, f) == if f.port == port then RuleVerdict(rest, f) else None
  {
    hide Quoted;
    QuotedInjective(port, f.port);
    var words := ["iifname", Quoted(port)] + rest;
    assert words[0] == "iifname" && words[2..] == rest;
  }

  lemma EtherVerdict(mac: string, rest: seq<string>, f: Frame)
    ensures RuleVerdict(["ether", "saddr", mac] + rest, f) ==
      if ReadMac(mac) == Some(f.mac) then RuleVerdict(rest, f) else None
  {
    hide ReadMac, Quoted;
    var words := ["ether", "saddr", mac] + rest;
    assert words[0] == "ether" && words[..2] == ["ether", "saddr"] && words[3..] == rest;
    assert words[..3][0] == "ether";
  }

  lemma IpVerdict(ip: string, rest: seq<string>, f: Frame)
    ensures RuleVerdict(["ip", "saddr", ip] + rest, f) ==
      if f.payload.Ipv4? && ReadIp(ip) == Some(f.payload.source) then RuleVerdict(rest, f) else None
  {
    hide ReadIp, Quoted;
    var words := ["ip", "saddr", ip] + rest;
    assert words[0] == "ip" && words[..2] == ["ip", "saddr"] && words[3..] == rest;
    assert words[..3][0] == "ip" && words[..2][0] == "ip";
  }

  lemma ArpVerdict(ip: string, rest: seq<string>, f: Frame)
    ensures RuleVerdict(["arp", "saddr", "ip", ip] + rest, f) ==
      if f.payload.Arp? && ReadIp(ip) == Some(f.payload.source) then RuleVerdict(rest, f) else None
  {
    hide ReadIp, Quoted;
    var words := ["arp", "saddr", "ip", ip] + rest;
    assert words[0] == "arp" && words[..3] == ["arp", "saddr", "ip"] && words[4..] == rest;
    assert words[..3][0] == "arp" && words[..2][0] == "arp";
  }

  /** A space's two rules accept its honest frames and decide nothing else. */
  lemma SpaceRules(cid: nat, f: Frame)
    ensures RuleVerdict(IpRule(cid), f) == if Honest(cid, f) && f.payload.Ipv4? then Some(Accept) else None
    ensures RuleVerdict(ArpRule(cid), f) == if Honest(cid, f) && f.payload.Arp? then Some(Accept) else None
  {
    hide RuleVerdict, ReadMac, ReadIp, SpaceMac, SpaceIpv4, SpaceTap, Quoted;
    var tap, mac, ip := SpaceTap(cid), SpaceMac(cid), SpaceIpv4(cid);
    MacReadsBack(cid);
    IpReadsBack(cid);
    AcceptVerdict(f);
    var ip1 := ["ip", "saddr", ip] + ["accept"];
    var ip2 := ["ether", "saddr", mac] + ip1;
    IpVerdict(ip, ["accept"], f);
    EtherVerdict(mac, ip1, f);
    IifnameVerdict(tap, ip2, f);
    assert IpRule(cid) == ["iifname", Quoted(tap)] + ip2;
    var arp1 := ["arp", "saddr", "ip", ip] + ["accept"];
    var arp2 := ["ether", "saddr", mac] + arp1;
    ArpVerdict(ip, ["accept"], f);
    EtherVerdict(mac, arp1, f);
    IifnameVerdict(tap, arp2, f);
    assert ArpRule(cid) == ["iifname", Quoted(tap)] + arp2;
  }

  lemma {:induction false} EvaluateRules(spaces: seq<Entry>, f: Frame)
    ensures Evaluate(Rules(spaces) + [["drop"]], f) == Accept <==> exists e :: e in spaces && Honest(e.cid, f)
  {
    hide RuleVerdict, Honest, IpRule, ArpRule;
    AcceptVerdict(f);
    if spaces != [] {
      var e, rest := spaces[0], Rules(spaces[1..]) + [["drop"]];
      EvaluateRules(spaces[1..], f);
      assert spaces == [e] + spaces[1..];
      assert Rules(spaces) + [["drop"]] == [IpRule(e.cid)] + ([ArpRule(e.cid)] + rest);
      EvaluatePair(e.cid, rest, f);
    } else {
      assert Rules(spaces) + [["drop"]] == [["drop"]];
    }
  }

  lemma EvaluatePair(cid: nat, rest: seq<seq<string>>, f: Frame)
    ensures Evaluate([IpRule(cid)] + ([ArpRule(cid)] + rest), f) == if Honest(cid, f) then Accept else Evaluate(rest, f)
  {
    hide RuleVerdict, IpRule, ArpRule;
    SpaceRules(cid, f);
    var rules := [IpRule(cid)] + ([ArpRule(cid)] + rest);
    assert rules[1..] == [ArpRule(cid)] + rest && ([ArpRule(cid)] + rest)[1..] == rest;
  }

  lemma EvaluateChain(spaces: seq<Entry>, f: Frame)
    ensures Evaluate([TYPE_LINE, META_RULE, ROUTER_RULE] + (Rules(spaces) + [["drop"]]), f) == Accept <==>
      || f.bridge != "br-spaces" || f.port == "tap-spaces" || exists e :: e in spaces && Honest(e.cid, f)
  {
    hide RuleVerdict, Honest, Rules, Evaluate, TYPE_LINE, META_RULE, ROUTER_RULE;
    var rest := Rules(spaces) + [["drop"]];
    HeadVerdicts(f);
    EvaluateRules(spaces, f);
    EvaluateStep(ROUTER_RULE, rest, f);
    EvaluateStep(META_RULE, [ROUTER_RULE] + rest, f);
    EvaluateStep(TYPE_LINE, [META_RULE] + ([ROUTER_RULE] + rest), f);
    assert [TYPE_LINE, META_RULE, ROUTER_RULE] + rest == [TYPE_LINE] + ([META_RULE] + ([ROUTER_RULE] + rest));
  }

  lemma EvaluateStep(rule: seq<string>, rest: seq<seq<string>>, f: Frame)
    ensures Evaluate([rule] + rest, f) ==
      if RuleVerdict(rule, f).Some? then RuleVerdict(rule, f).value else Evaluate(rest, f)
  {
    hide RuleVerdict;
    assert ([rule] + rest)[1..] == rest;
  }

  lemma HeadVerdicts(f: Frame)
    ensures RuleVerdict(TYPE_LINE, f) == None
    ensures RuleVerdict(META_RULE, f) == if f.bridge != "br-spaces" then Some(Accept) else None
    ensures RuleVerdict(ROUTER_RULE, f) == if f.port == "tap-spaces" then Some(Accept) else None
  {
    hide Quoted;
    AcceptVerdict(f);
    assert TYPE_LINE[0] == "type" && TYPE_LINE[..3][0] == "type" && TYPE_LINE[..2][0] == "type";
    QuotedInjective("br-spaces", f.bridge);
    assert META_RULE[0] == "meta" && META_RULE[..3] == ["meta", "ibrname", "!="] && META_RULE[4..] == ["accept"];
    IifnameVerdict("tap-spaces", ["accept"], f);
    assert ROUTER_RULE == ["iifname", Quoted("tap-spaces")] + ["accept"];
  }

  // ---- the generated text read back ----

  lemma {:induction false} UpToBraceOf(body: seq<seq<string>>, rest: seq<seq<string>>)
    requires ["}"] !in body
    ensures UpToBrace(body + [["}"]] + rest) == body
  {
    var program := body + [["}"]] + rest;
    if body != [] {
      UpToBraceOf(body[1..], rest);
      assert program[1..] == body[1..] + [["}"]] + rest;
      assert program[0] == body[0] && body[0] in body;
    } else {
      assert program[0] == ["}"];
    }
  }

  lemma {:induction false} RulesSpoken(spaces: seq<Entry>)
    ensures Spoken(RuleLines(spaces)) == Rules(spaces)
    ensures forall l :: l in RuleLines(spaces) ==> PlainLine(l)
  {
    if spaces == [] {
      SpokenNil();
    } else {
      hide IpRule, ArpRule, PlainLine, Silent, Spoken, RuleLines, Rules;
      RulesSpoken(spaces[1..]);
      var cid, more := spaces[0].cid, RuleLines(spaces[1..]);
      RuleWords(cid);
      RulesStep(spaces);
      SpokenPair(Line(2, IpRule(cid)), Line(2, ArpRule(cid)), more);
    }
  }

  lemma RulesStep(spaces: seq<Entry>)
    requires spaces != []
    ensures var cid := spaces[0].cid;
      && RuleLines(spaces) == [Line(2, IpRule(cid)), Line(2, ArpRule(cid))] + RuleLines(spaces[1..])
      && Rules(spaces) == [IpRule(cid), ArpRule(cid)] + Rules(spaces[1..])
  {
    hide IpRule, ArpRule;
  }

  lemma SpokenPair(a: Line, b: Line, rest: seq<Line>)
    requires !Silent(a.words) && !Silent(b.words)
    ensures Spoken([a, b] + rest) == [a.words, b.words] + Spoken(rest)
  {
    hide Silent, Spoken;
    SpokenLine(b, rest);
    SpokenLine(a, [b] + rest);
    assert [a, b] + rest == [a] + ([b] + rest);
  }

  lemma SpokenNil()
    ensures Spoken([]) == []
  {
  }

  lemma {:induction false} RulesHaveNoBrace(spaces: seq<Entry>)
    ensures ["}"] !in Rules(spaces)
  {
    if spaces != [] {
      hide IpRule, ArpRule, PlainLine, Silent;
      RulesHaveNoBrace(spaces[1..]);
      RuleWords(spaces[0].cid);
    }
  }

  lemma SpokenLine(l: Line, rest: seq<Line>)
    ensures Spoken([l] + rest) == (if Silent(l.words) then [] else [l.words]) + Spoken(rest)
  {
    hide Silent;
    assert ([l] + rest)[1..] == rest;
  }

  lemma PlainChars(s: string)
    requires s != [] && forall c :: c in s ==> '!' <= c
    ensures Plain(s) && Plain(Quoted(s))
  {
    forall i | 0 <= i < |Quoted(s)| ensures '!' <= Quoted(s)[i] {
      assert Quoted(s)[i] == '"' || Quoted(s)[i] in s;
    }
    assert forall i :: 0 <= i < |s| ==> s[i] in s;
  }

  lemma RuleWords(cid: nat)
    ensures PlainLine(Line(2, IpRule(cid))) && PlainLine(Line(2, ArpRule(cid)))
    ensures !Silent(IpRule(cid)) && !Silent(ArpRule(cid)) && IpRule(cid) != ["}"] && ArpRule(cid) != ["}"]
  {
    hide Plain, Quoted, SpaceTap, SpaceMac, SpaceIpv4;
    AddressWords(cid);
    PlainChars("iifname");
    PlainChars("ether");
    PlainChars("saddr");
    PlainChars("ip");
    PlainChars("arp");
    PlainChars("accept");
    assert |IpRule(cid)| == 9 && |ArpRule(cid)| == 10;
  }

  lemma AddressWords(cid: nat)
    ensures Plain(Quoted(SpaceTap(cid))) && Plain(SpaceMac(cid)) && Plain(SpaceIpv4(cid))
  {
    hide Plain, Quoted, Hex2, Dec;
    HexWord(cid);
    assert forall c :: c in Dec(cid) ==> '!' <= c by { assert AllDigits(Dec(cid)); }
    PlainChars(SpaceTap(cid));
    PlainChars(SpaceMac(cid));
    PlainChars(SpaceIpv4(cid));
  }

  lemma HexWord(n: nat)
    ensures forall c :: c in Hex2(n) ==> '!' <= c
  {
    HexChars(n);
    assert forall c :: HexCharValue(c).Some? ==> '!' <= c;
  }

  lemma HeaderPlain()
    ensures forall l :: l in HEADER ==> PlainLine(l)
  {
    hide Plain, Quoted;
    PlainChars("#!/usr/sbin/nft");
    PlainChars("-f");
    PlainChars("#");
    PlainChars("anti-spoofing");
    PlainChars("add");
    PlainChars("table");
    PlainChars("bridge");
    PlainChars("miyori");
    PlainChars("flush");
    PlainChars("{");
  }

  lemma ChainOpenPlain()
    ensures forall l :: l in CHAIN_OPEN ==> PlainLine(l)
  {
    hide Plain, Quoted;
    PlainChars("chain");
    PlainChars("spaces");
    PlainChars("{");
    PlainChars("type");
    PlainChars("filter");
    PlainChars("hook");
    PlainChars("forward");
    PlainChars("priority");
    PlainChars("filter;");
    PlainChars("policy");
    PlainChars("accept;");
    PlainChars("#");
    PlainChars("other");
    PlainChars("bridges");
  }

  lemma ChainFirstPlain()
    ensures forall l :: l in CHAIN_FIRST ==> PlainLine(l)
  {
    hide Plain, Quoted;
    PlainChars("meta");
    PlainChars("ibrname");
    PlainChars("!=");
    PlainChars("br-spaces");
    PlainChars("accept");
    PlainChars("iifname");
    PlainChars("tap-spaces");
  }

  lemma ChainTailPlain()
    ensures forall l :: l in CHAIN_TAIL ==> PlainLine(l)
  {
    hide Plain, Quoted;
    PlainChars("#");
    PlainChars("everything");
    PlainChars("else");
    PlainChars("drop");
    PlainChars("}");
  }

  lemma HostOpenPlain()
    ensures forall l :: l in HOST_OPEN ==> PlainLine(l)
  {
    hide Plain, Quoted;
    PlainChars("#");
    PlainChars("frames");
    PlainChars("to");
    PlainChars("the");
    PlainChars("host");
    PlainChars("chain");
    PlainChars("to-host");
    PlainChars("{");
    PlainChars("type");
    PlainChars("filter");
    PlainChars("hook");
    PlainChars("input");
    PlainChars("priority");
    PlainChars("filter;");
    PlainChars("policy");
    PlainChars("accept;");
  }

  lemma HostRulesPlain()
    ensures forall l :: l in HOST_RULES ==> PlainLine(l)
  {
    hide Plain, Quoted;
    PlainChars("meta");
    PlainChars("ibrname");
    PlainChars("!=");
    PlainChars("br-spaces");
    PlainChars("accept");
    PlainChars("counter");
    PlainChars("drop");
    PlainChars("}");
  }

  function SpokenOf(l: Line): seq<seq<string>> { if Silent(l.words) then [] else [l.words] }

  lemma SpokenFour(a: Line, b: Line, c: Line, d: Line)
    ensures Spoken([a, b, c, d]) == SpokenOf(a) + (SpokenOf(b) + (SpokenOf(c) + SpokenOf(d)))
  {
    hide Silent;
    var none: seq<Line> := [];
    assert Spoken(none) == [];
    SpokenLine(d, none);
    SpokenLine(c, [d] + none);
    SpokenLine(b, [c] + ([d] + none));
    SpokenLine(a, [b] + ([c] + ([d] + none)));
    assert [a, b, c, d] == [a] + ([b] + ([c] + ([d] + none)));
    assert SpokenOf(d) + [] == SpokenOf(d);
  }

  lemma ConstantsSpoken()
    ensures Spoken(CHAIN_OPEN) == [["chain", "spaces", "{"], TYPE_LINE]
    ensures Spoken(CHAIN_FIRST) == [META_RULE, ROUTER_RULE]
    ensures Spoken(CHAIN_TAIL) == [["drop"], ["}"]]
    ensures Spoken(HOST_OPEN) == [["chain", "to-host", "{"], HOST_TYPE_LINE]
    ensures Spoken(HOST_RULES) == [META_RULE, DROP_RULE, ["}"], ["}"]]
  {
    hide Spoken;
    SpokenFour(CHAIN_OPEN[0], CHAIN_OPEN[1], CHAIN_OPEN[2], CHAIN_OPEN[3]);
    SpokenFour(CHAIN_FIRST[0], CHAIN_FIRST[1], CHAIN_FIRST[2], CHAIN_FIRST[3]);
    SpokenFour(CHAIN_TAIL[0], CHAIN_TAIL[1], CHAIN_TAIL[2], CHAIN_TAIL[3]);
    SpokenFour(HOST_OPEN[0], HOST_OPEN[1], HOST_OPEN[2], HOST_OPEN[3]);
    SpokenFour(HOST_RULES[0], HOST_RULES[1], HOST_RULES[2], HOST_RULES[3]);
  }

  lemma {:induction false} SpokenMembers(lines: seq<Line>, words: seq<string>)
    requires words in Spoken(lines)
    ensures exists l :: l in lines && l.words == words
  {
    if words == lines[0].words {
      assert lines[0] in lines;
    } else {
      SpokenMembers(lines[1..], words);
      var l :| l in lines[1..] && l.words == words;
      assert l in lines;
    }
  }

  lemma {:induction false} ChainAfter(before: seq<seq<string>>, rest: seq<seq<string>>, name: string)
    requires ["chain", name, "{"] !in before
    ensures ChainOf(before + rest, name) == ChainOf(rest, name)
  {
    if before == [] {
      assert before + rest == rest;
    } else {
      ChainAfter(before[1..], rest, name);
      assert (before + rest)[1..] == before[1..] + rest;
      assert before[0] in before;
    }
  }

  lemma HeaderOpensNoChain(name: string)
    ensures ["chain", name, "{"] !in Spoken(HEADER)
  {
    hide Spoken;
    assert forall l :: l in HEADER ==> |l.words| != 3;
    if ["chain", name, "{"] in Spoken(HEADER) { SpokenMembers(HEADER, ["chain", name, "{"]); }
  }

  /** What the file says before, in and after the chain for forwarded frames. */
  lemma RulesetProgram(spaces: seq<Entry>)
    ensures Program(RulesetText(spaces)) ==
      Spoken(HEADER) + (Spoken(CHAIN_OPEN) + (Spoken(CHAIN_FIRST) + (Rules(spaces) + (Spoken(CHAIN_TAIL)
        + (Spoken(HOST_OPEN) + (Spoken(HOST_RULES) + Program("")))))))
  {
    hide Program, Spoken, FileText, RuleLines, Rules, PlainLine;
    hide HEADER, CHAIN_OPEN, CHAIN_FIRST, CHAIN_TAIL, HOST_OPEN, HOST_RULES;
    HeaderPlain();
    ChainOpenPlain();
    ChainFirstPlain();
    RulesSpoken(spaces);
    ChainTailPlain();
    HostOpenPlain();
    HostRulesPlain();
    var t6 := FileText(HOST_RULES) + "";
    var t5 := FileText(HOST_OPEN) + t6;
    var t4 := FileText(CHAIN_TAIL) + t5;
    var t3 := FileText(RuleLines(spaces)) + t4;
    var t2 := FileText(CHAIN_FIRST) + t3;
    var t1 := FileText(CHAIN_OPEN) + t2;
    ProgramOf(HOST_RULES, "");
    ProgramOf(HOST_OPEN, t6);
    ProgramOf(CHAIN_TAIL, t5);
    ProgramOf(RuleLines(spaces), t4);
    ProgramOf(CHAIN_FIRST, t3);
    ProgramOf(CHAIN_OPEN, t2);
    ProgramOf(HEADER, t1);
    assert RulesetText(spaces) == FileText(HEADER) + t1;
  }

  function SpaceBody(spaces: seq<Entry>): seq<seq<string>> {
    [TYPE_LINE, META_RULE, ROUTER_RULE] + (Rules(spaces) + [["drop"]])
  }

  function HostBody(): seq<seq<string>> { [HOST_TYPE_LINE, META_RULE, DROP_RULE] }

  const CLOSE: seq<string> := ["}"]

  /** The program in the order of its two chains. */
  lemma ProgramByChains(spaces: seq<Entry>)
    ensures Program(RulesetText(spaces)) ==
      Spoken(HEADER) + ([["chain", "spaces", "{"]] + (SpaceBody(spaces) + [CLOSE]
        + ([["chain", "to-host", "{"]] + (HostBody() + [CLOSE] + ([CLOSE] + Program(""))))))
  {
    hide Program, Spoken, Rules, HEADER, CHAIN_OPEN, CHAIN_FIRST, CHAIN_TAIL, HOST_OPEN, HOST_RULES;
    hide TYPE_LINE, META_RULE, ROUTER_RULE, HOST_TYPE_LINE, DROP_RULE;
    RulesetProgram(spaces);
    ConstantsSpoken();
    var open: seq<string> := ["chain", "to-host", "{"];
    RegroupHost(open, HOST_TYPE_LINE, META_RULE, DROP_RULE, CLOSE, Program(""));
    var rest := [open] + (HostBody() + [CLOSE] + ([CLOSE] + Program("")));
    Regroup(Spoken(HEADER), ["chain", "spaces", "{"], TYPE_LINE, META_RULE, ROUTER_RULE, Rules(spaces),
      ["drop"], CLOSE, rest);
  }

  lemma RegroupHost<T>(open: T, a: T, b: T, c: T, close: T, rest: seq<T>)
    ensures [open, a] + ([b, c, close, close] + rest) == [open] + ([a, b, c] + [close] + ([close] + rest))
  {
  }

  lemma BodiesOpenNothing(spaces: seq<Entry>)
    ensures CLOSE !in SpaceBody(spaces) && CLOSE !in HostBody()
    ensures ["chain", "to-host", "{"] !in SpaceBody(spaces)
  {
    hide Rules;
    RulesHaveNoBrace(spaces);
    RulesAreLong(spaces);
    assert "iifname" != "chain" && "drop" != "}";
    assert |["chain", "to-host", "{"]| == 3 && |TYPE_LINE| == 8 && |META_RULE| == 5 && ROUTER_RULE[0] == "iifname";
  }

  lemma {:induction false} RulesAreLong(spaces: seq<Entry>)
    ensures forall r :: r in Rules(spaces) ==> |r| >= 9
  {
    if spaces != [] { RulesAreLong(spaces[1..]); }
  }

  lemma RulesetChain(spaces: seq<Entry>)
    ensures ChainOf(Program(RulesetText(spaces)), "spaces") == SpaceBody(spaces)
    ensures ChainOf(Program(RulesetText(spaces)), "to-host") == HostBody()
  {
    hide Program, Spoken, SpaceBody, HostBody, HEADER, ChainOf, CLOSE;
    ProgramByChains(spaces);
    HeaderOpensNoChain("spaces");
    HeaderOpensNoChain("to-host");
    BodiesOpenNothing(spaces);
    CloseIsBrace();
    NamesDiffer();
    TwoChains(Spoken(HEADER), "spaces", SpaceBody(spaces), "to-host", HostBody(), [CLOSE] + Program(""));
  }

  lemma TwoChains(before: seq<seq<string>>, a: string, first: seq<seq<string>>, b: string, second: seq<seq<string>>,
      rest: seq<seq<string>>)
    requires ["chain", a, "{"] !in before && ["chain", b, "{"] !in before && ["chain", a, "{"] != ["chain", b, "{"]
    requires CLOSE !in first && CLOSE !in second && ["chain", b, "{"] !in first
    requires CLOSE != ["chain", b, "{"] && CLOSE == ["}"]
    ensures var program :=
        before + ([["chain", a, "{"]] + (first + [CLOSE] + ([["chain", b, "{"]] + (second + [CLOSE] + rest))));
      ChainOf(program, a) == first && ChainOf(program, b) == second
  {
    hide ChainOf, CLOSE;
    var host := [["chain", b, "{"]] + (second + [CLOSE] + rest);
    ChainInside(before, a, first, host);
    var ahead := before + ([["chain", a, "{"]] + (first + [CLOSE]));
    ChainInside(ahead, b, second, rest);
    assert before + ([["chain", a, "{"]] + (first + [CLOSE] + host)) == ahead + host;
  }

  lemma CloseIsBrace()
    ensures CLOSE == ["}"] && CLOSE != ["chain", "to-host", "{"]
  {
  }

  lemma NamesDiffer()
    ensures ["chain", "spaces", "{"] != ["chain", "to-host", "{"]
  {
    assert ["chain", "spaces", "{"][1] != ["chain", "to-host", "{"][1];
  }

  lemma Regroup<T>(before: seq<T>, open: T, a: T, b: T, c: T, rules: seq<T>, drop: T, close: T, rest: seq<T>)
    ensures before + ([open, a] + ([b, c] + (rules + ([drop, close] + rest))))
      == before + ([open] + (([a, b, c] + (rules + [drop])) + [close] + rest))
  {
    var tail := rules + ([drop, close] + rest);
    assert tail == (rules + [drop]) + ([close] + rest);
    assert [open, a] + ([b, c] + tail) == [open] + ([a, b, c] + tail);
    assert [a, b, c] + tail == ([a, b, c] + (rules + [drop])) + [close] + rest;
  }

  lemma ChainInside(before: seq<seq<string>>, name: string, body: seq<seq<string>>, rest: seq<seq<string>>)
    requires ["chain", name, "{"] !in before && ["}"] !in body
    ensures ChainOf(before + ([["chain", name, "{"]] + (body + [["}"]] + rest)), name) == body
  {
    var chain := [["chain", name, "{"]] + (body + [["}"]] + rest);
    UpToBraceOf(body, rest);
    assert chain[1..] == body + [["}"]] + rest;
    ChainAfter(before, chain, name);
  }

  /**
   * The generated file, read and evaluated, lets a frame through exactly when it is on another bridge,
   * comes from the router's port, or comes from a space's port with that space's MAC and IPv4 or ARP
   * source. This holds for any list, so the order and the repetitions of its entries do not matter.
   */
  lemma RulesetMeaning(entries: seq<Entry>, f: Frame)
    ensures Forwards(RulesetText(Sort(Spaces(entries))), f) <==>
      || f.bridge != "br-spaces" || f.port == "tap-spaces"
      || exists e :: e in entries && e.id != MIYORI_NET && Honest(e.cid, f)
  {
    hide Sort, Spaces, RulesetText, Program, ChainOf, Evaluate, Rules, Honest, HostBody;
    var spaces := Spaces(entries);
    RulesetChain(Sort(spaces));
    EvaluateChain(Sort(spaces), f);
    forall e ensures e in Sort(spaces) <==> e in entries && e.id != MIYORI_NET { SortKeeps(spaces, e); }
  }

  lemma HonestSource(cid: nat, f: Frame)
    requires Honest(cid, f)
    ensures f.port == SpaceTap(cid) && f.mac == Mac(cid) && !f.payload.Other? && f.payload.source == Ip(cid)
  {
  }

  /** Frames let through from two different space ports never share a source MAC or a source address. */
  lemma NoSharedSource(entries: seq<Entry>, f: Frame, g: Frame)
    requires Forwards(RulesetText(Sort(Spaces(entries))), f) && Forwards(RulesetText(Sort(Spaces(entries))), g)
    requires f.bridge == g.bridge == "br-spaces" && f.port != g.port
    requires f.port != "tap-spaces" && g.port != "tap-spaces"
    ensures f.mac != g.mac && !f.payload.Other? && !g.payload.Other? && f.payload.source != g.payload.source
  {
    hide Forwards, RulesetText, Sort, Spaces;
    RulesetMeaning(entries, f);
    RulesetMeaning(entries, g);
    var d :| d in entries && Honest(d.cid, f);
    var e :| e in entries && Honest(e.cid, g);
    HonestSource(d.cid, f);
    HonestSource(e.cid, g);
    assert Mac(d.cid)[5] != Mac(e.cid)[5] && Ip(d.cid)[3] != Ip(e.cid)[3];
  }

  /** The other chain of the same file: nothing from the bridge of the spaces reaches the host. */
  lemma HostIsShielded(entries: seq<Entry>, f: Frame)
    ensures Evaluate(ChainOf(Program(RulesetText(Sort(Spaces(entries)))), "to-host"), f) == Drop <==>
      f.bridge == "br-spaces"
  {
    hide Sort, Spaces, RulesetText, Program, ChainOf, SpaceBody, Evaluate, RuleVerdict, META_RULE, DROP_RULE,
      HOST_TYPE_LINE;
    RulesetChain(Sort(Spaces(entries)));
    HeadVerdicts(f);
    HostVerdicts(f);
    var none: seq<seq<string>> := [];
    EvaluateStep(DROP_RULE, none, f);
    EvaluateStep(META_RULE, [DROP_RULE] + none, f);
    EvaluateStep(HOST_TYPE_LINE, [META_RULE] + ([DROP_RULE] + none), f);
    assert HostBody() == [HOST_TYPE_LINE] + ([META_RULE] + ([DROP_RULE] + none));
  }

  lemma HostVerdicts(f: Frame)
    ensures RuleVerdict(HOST_TYPE_LINE, f) == None && RuleVerdict(DROP_RULE, f) == Some(Drop)
  {
    hide Quoted;
    AcceptVerdict(f);
    assert HOST_TYPE_LINE[0] == "type" && HOST_TYPE_LINE[..3][0] == "type" && HOST_TYPE_LINE[..2][0] == "type";
    assert DROP_RULE[0] == "counter" && DROP_RULE[1..] == ["drop"];
  }
}
