// Reading one line from a socket byte by byte, with a cap on its length.
module Lines {
  import opened Text
  import opened Bytes

  const NEWLINE: byte := 10

  predicate IsControl(b: byte) { b < 32 || b == DELETE }

  datatype Read =
    | Line(text: bytes)
    | Closed
    | TooLong
    | NotUtf8
    | Forbidden(b: byte)

  /** What reading from `s` gives when `buf` has been collected already, and what it leaves unread. */
  function ReadFrom(s: bytes, limit: nat, buf: bytes): (r: (Read, bytes))
    ensures r.0.Line? ==> |r.1| < |s|
    decreases |s|
  {
    if s == [] then (Closed, [])
    else if |buf| + 1 > limit then (TooLong, s[1..])
    else if s[0] == NEWLINE then (if ValidUtf8(buf) then Line(buf) else NotUtf8, s[1..])
    else if IsControl(s[0]) then (Forbidden(s[0]), s[1..])
    else ReadFrom(s[1..], limit, buf + [s[0]])
  }

  function ReadLine(s: bytes, limit: nat): (r: (Read, bytes))
    ensures r.0.Line? ==> |r.1| < |s|
  {
    ReadFrom(s, limit, [])
  }

  /** A text some line can carry: with its newline it fits the cap, and it has no control bytes. */
  predicate Passable(text: bytes, limit: nat) {
    |text| + 1 <= limit && ValidUtf8(text) && forall b :: b in text ==> b >= 32 && b != 127
  }

  lemma {:induction false} ReadFromText(text: bytes, rest: bytes, limit: nat, buf: bytes)
    requires |buf| + |text| + 1 <= limit && ValidUtf8(buf + text)
    requires forall b :: b in text ==> !IsControl(b)
    ensures ReadFrom(text + [NEWLINE] + rest, limit, buf) == (Line(buf + text), rest)
  {
    var s := text + [NEWLINE] + rest;
    if text == [] {
      assert s == [NEWLINE] + rest && buf + text == buf;
      assert s[1..] == rest;
    } else {
      assert s[0] == text[0] && text[0] in text;
      assert s[1..] == text[1..] + [NEWLINE] + rest;
      assert buf + [text[0]] + text[1..] == buf + text;
      ReadFromText(text[1..], rest, limit, buf + [text[0]]);
    }
  }

  lemma {:induction false} TextReadFrom(s: bytes, limit: nat, buf: bytes)
    requires ReadFrom(s, limit, buf).0.Line?
    requires forall b :: b in buf ==> !IsControl(b)
    ensures var (line, rest) := ReadFrom(s, limit, buf);
      && Passable(line.text, limit) && buf <= line.text
      && s == line.text[|buf|..] + [NEWLINE] + rest
    decreases |s|
  {
    if s[0] == NEWLINE {
      assert buf[|buf|..] == [];
    } else {
      TextReadFrom(s[1..], limit, buf + [s[0]]);
      var (line, rest) := ReadFrom(s, limit, buf);
      assert line.text[|buf|..] == [s[0]] + line.text[|buf| + 1..];
    }
  }

  lemma FirstNewline(a: bytes, b: bytes, x: bytes, y: bytes)
    requires NEWLINE !in a && NEWLINE !in b
    requires a + [NEWLINE] + x == b + [NEWLINE] + y
    ensures a == b && x == y
  {
    var s := a + [NEWLINE] + x;
    assert s[|a|] == NEWLINE && s[|b|] == NEWLINE;
    assert forall i :: 0 <= i < |a| ==> s[i] == a[i];
    assert forall i :: 0 <= i < |b| ==> s[i] == b[i];
    assert a == s[..|a|] && b == s[..|b|];
    assert x == s[|a| + 1..] && y == s[|b| + 1..];
  }

  /** The line reader returns a line exactly when the bytes begin with a passable one, and consumes just that line. */
  lemma LineIff(s: bytes, limit: nat, text: bytes, rest: bytes)
    ensures ReadLine(s, limit) == (Line(text), rest) <==> Passable(text, limit) && s == text + [NEWLINE] + rest
  {
    if ReadLine(s, limit) == (Line(text), rest) {
      TextReadFrom(s, limit, []);
    }
    if Passable(text, limit) && s == text + [NEWLINE] + rest {
      assert [] + text == text;
      ReadFromText(text, rest, limit, []);
    }
  }

  /** A line that cannot pass stops the reader, whatever follows it. */
  lemma UnpassableLine(text: bytes, rest: bytes, limit: nat)
    requires NEWLINE !in text && !Passable(text, limit)
    ensures !ReadLine(text + [NEWLINE] + rest, limit).0.Line?
  {
    var s := text + [NEWLINE] + rest;
    if ReadLine(s, limit).0.Line? {
      var (line, after) := ReadLine(s, limit);
      LineIff(s, limit, line.text, after);
      assert NEWLINE !in line.text;
      FirstNewline(text, line.text, rest, after);
    }
  }

  lemma LineHasNewline(s: bytes, limit: nat)
    requires ReadLine(s, limit).0.Line?
    ensures NEWLINE in s
  {
    var (line, rest) := ReadLine(s, limit);
    LineIff(s, limit, line.text, rest);
    assert s[|line.text|] == NEWLINE;
  }

  /** A byte source that hands out one byte at a time; after the last one reads return nothing. */
  class Reader {
    var unread: bytes

    constructor (data: bytes)
      ensures unread == data
    {
      unread := data;
    }

    method ReadCappedLine(limit: nat) returns (r: Read)
      modifies this
      ensures (r, unread) == ReadLine(old(unread), limit)
    {
      var buf: bytes := [];
      while true
        invariant ReadFrom(unread, limit, buf) == ReadLine(old(unread), limit)
        decreases |unread|
      {
        if unread == [] {
          return Closed;
        }
        var b := unread[0];
        unread := unread[1..];
        if |buf| + 1 > limit {
          return TooLong;
        }
        if b == NEWLINE {
          return if ValidUtf8(buf) then Line(buf) else NotUtf8;
        }
        if IsControl(b) {
          return Forbidden(b);
        }
        buf := buf + [b];
      }
    }
  }
}
