// What the parser makes of the printer's output: the value itself, unless it nests too deep.
module JsonRoundTrip {
  import opened Text
  import opened Bytes
  import opened Json

  /** What can stand after a value: nothing, a separator or a closing bracket. */
  predicate Stops(rest: bytes) {
    rest == [] || rest[0] == COMMA || rest[0] == CLOSE_ARR || rest[0] == CLOSE_OBJ
  }

  // ---- strings ----

  lemma HexDigitValue(d: nat)
    requires d < 16
    ensures HexValue(HexDigit(d)) == Some(d)
  {
  }

  lemma ControlEscape(b: byte, t: bytes)
    requires b < 32
    ensures UnicodeEscape([48, 48, HexDigit(b / 16), HexDigit(b % 16)] + t) == Some(([b], 4))
  {
    HexDigitValue(b / 16);
    HexDigitValue(b % 16);
    assert Hex4([48, 48, HexDigit(b / 16), HexDigit(b % 16)] + t) == Some(b as nat);
  }

  lemma ParseStrStep(b: byte, t: bytes)
    ensures ParseStr(EscapeByte(b) + t) == Prepend([b], ParseStr(t))
  {
    var e := EscapeByte(b);
    if |e| == 1 {
      assert (e + t)[1..] == t;
    } else if |e| == 2 {
      assert (e + t)[2..] == t;
    } else {
      ControlEscape(b, t);
      assert (e + t)[2..] == [48, 48, HexDigit(b / 16), HexDigit(b % 16)] + t;
      assert (e + t)[6..] == t;
    }
  }

  /** A string read back is the string written, whatever bytes it has. */
  lemma {:induction false} StrRoundTrip(s: bytes, rest: bytes)
    ensures ParseStr(Escape(s) + [QUOTE] + rest) == Some((s, rest))
  {
    hide EscapeByte;
    if s == [] {
      assert Escape(s) + [QUOTE] + rest == [QUOTE] + rest;
      assert ([QUOTE] + rest)[1..] == rest;
    } else {
      hide ParseStr;
      StrRoundTrip(s[1..], rest);
      ParseStrStep(s[0], Escape(s[1..]) + [QUOTE] + rest);
      assert Escape(s) + [QUOTE] + rest == EscapeByte(s[0]) + (Escape(s[1..]) + [QUOTE] + rest);
      assert [s[0]] + s[1..] == s;
    }
  }

  // ---- numbers ----

  lemma {:induction false} DigitRunOf(s: bytes, rest: bytes)
    requires forall i :: 0 <= i < |s| ==> IsDigitByte(s[i])
    requires rest == [] || !IsDigitByte(rest[0])
    ensures DigitRun(s + rest) == |s|
  {
    if s == [] {
      assert s + rest == rest;
    } else {
      DigitRunOf(s[1..], rest);
      assert (s + rest)[1..] == s[1..] + rest;
    }
  }

  lemma {:induction false} ReadDigitsOfAscii(s: string)
    requires AllDigits(s)
    ensures forall i :: 0 <= i < |s| ==> IsDigitByte(Ascii(s)[i])
    ensures ReadDigits(Ascii(s)) == ReadDec(s)
  {
    if s != [] {
      ReadDigitsOfAscii(s[..|s| - 1]);
      assert Ascii(s)[..|s| - 1] == Ascii(s[..|s| - 1]);
    }
  }

  lemma NatBytes(n: nat)
    ensures var s := PrintNat(n);
      && |s| > 0 && (forall i :: 0 <= i < |s| ==> IsDigitByte(s[i]))
      && ReadDigits(s) == n && (s[0] == 48 ==> |s| == 1)
  {
    ReadDigitsOfAscii(Dec(n));
    ReadDecOfDec(n);
  }

  lemma NatRoundTrip(n: nat, rest: bytes)
    requires IsInteger64(n) && Stops(rest)
    ensures ParseNum(PrintNat(n) + rest) == Some((Num(n), rest))
  {
    NatBytes(n);
    var s := PrintNat(n);
    DigitRunOf(s, rest);
    assert (s + rest)[0..] == s + rest && (s + rest)[..|s|] == s && (s + rest)[|s|..] == rest;
    assert FractionLen(rest) == Some(0) && ExponentLen(rest) == Some(0);
  }

  lemma NegativeRoundTrip(n: nat, rest: bytes)
    requires n > 0 && IsInteger64(-(n as int)) && Stops(rest)
    ensures ParseNum([MINUS] + PrintNat(n) + rest) == Some((Num(-(n as int)), rest))
  {
    NatBytes(n);
    var s := PrintNat(n);
    DigitRunOf(s, rest);
    assert FractionLen(rest) == Some(0) && ExponentLen(rest) == Some(0);
    hide PrintNat, DigitRun, ReadDigits, FractionLen, ExponentLen;
    var t := [MINUS] + s + rest;
    assert t[1..] == s + rest && (s + rest)[..|s|] == s && t[1 + |s|..] == rest;
  }

  /** What stops a value neither starts nor continues a part of a number. */
  lemma {:induction false} DigitRunStops(s: bytes, rest: bytes)
    requires Stops(rest)
    ensures DigitRun(s + rest) == DigitRun(s)
  {
    if s == [] {
      assert s + rest == rest;
    } else {
      DigitRunStops(s[1..], rest);
      assert (s + rest)[1..] == s[1..] + rest;
    }
  }

  lemma FractionStops(s: bytes, rest: bytes)
    requires Stops(rest)
    ensures FractionLen(s + rest) == FractionLen(s)
  {
    if s == [] {
      assert s + rest == rest;
    } else {
      DigitRunStops(s[1..], rest);
      assert (s + rest)[1..] == s[1..] + rest;
    }
  }

  lemma ExponentStops(s: bytes, rest: bytes)
    requires Stops(rest)
    ensures ExponentLen(s + rest) == ExponentLen(s)
  {
    if s == [] {
      assert s + rest == rest;
    } else {
      var sign := if |s| > 1 && (s[1] == 43 || s[1] == 45) then 2 else 1;
      DigitRunStops(s[sign..], rest);
      assert (s + rest)[sign..] == s[sign..] + rest;
    }
  }

  /** The parts of a number at the start of `s`: sign, digits, fraction and exponent. */
  predicate HasParts(s: bytes, sign: nat, n: nat, f: nat, e: nat) {
    && s != [] && sign == (if s[0] == MINUS then 1 else 0)
    && sign < |s| && DigitRun(s[sign..]) == n && n > 0 && !(s[sign] == 48 && n > 1)
    && FractionLen(s[sign + n..]) == Some(f) && ExponentLen(s[sign + n + f..]) == Some(e)
  }

  /** A number with a fraction or an exponent, minus zero, or too large for 64 bits. */
  predicate NotInteger(sign: nat, digits: bytes, f: nat, e: nat)
    requires forall i :: 0 <= i < |digits| ==> IsDigitByte(digits[i])
  {
    var magnitude: int := ReadDigits(digits);
    f > 0 || e > 0 || !IsInteger64(if sign == 1 then -magnitude else magnitude) || (sign == 1 && magnitude == 0)
  }

  lemma PartsOf(s: bytes) returns (sign: nat, n: nat, f: nat, e: nat)
    requires ParseNum(s).Some?
    ensures HasParts(s, sign, n, f, e)
  {
    hide DigitRun, FractionLen, ExponentLen, ReadDigits, IsInteger64;
    sign := if s != [] && s[0] == MINUS then 1 else 0;
    n := DigitRun(s[sign..]);
    f := FractionLen(s[sign + n..]).value;
    e := ExponentLen(s[sign + n + f..]).value;
  }

  lemma ParseParts(s: bytes, sign: nat, n: nat, f: nat, e: nat)
    requires HasParts(s, sign, n, f, e)
    ensures sign + n + f + e <= |s|
    ensures ParseNum(s).Some? && ParseNum(s).value.1 == s[sign + n + f + e..]
    ensures ParseNum(s).value.0 == Real(s[..sign + n + f + e]) <==> NotInteger(sign, s[sign..][..n], f, e)
  {
    hide DigitRun, FractionLen, ExponentLen, ReadDigits, IsInteger64;
  }

  lemma DropBoth(s: bytes, rest: bytes, k: nat)
    requires k <= |s|
    ensures (s + rest)[k..] == s[k..] + rest && (s + rest)[..k] == s[..k]
  {
  }

  lemma PartsStop(s: bytes, rest: bytes, sign: nat, n: nat, f: nat, e: nat)
    requires HasParts(s, sign, n, f, e) && Stops(rest)
    ensures HasParts(s + rest, sign, n, f, e) && (s + rest)[sign..][..n] == s[sign..][..n]
  {
    hide DigitRun, FractionLen, ExponentLen;
    DropBoth(s, rest, sign);
    DropBoth(s[sign..], rest, n);
    DropBoth(s, rest, sign + n);
    DropBoth(s, rest, sign + n + f);
    DigitRunStops(s[sign..], rest);
    FractionStops(s[sign + n..], rest);
    ExponentStops(s[sign + n + f..], rest);
  }

  lemma LexemeParts(s: bytes) returns (sign: nat, n: nat, f: nat, e: nat)
    requires IsLexeme(s)
    ensures HasParts(s, sign, n, f, e) && sign + n + f + e == |s|
    ensures NotInteger(sign, s[sign..][..n], f, e)
  {
    sign, n, f, e := PartsOf(s);
    ParseParts(s, sign, n, f, e);
    hide HasParts, NotInteger, ParseNum;
    var end := sign + n + f + e;
    assert s[end..] == [];
    assert s[..end] == s;
  }

  lemma LexemeRoundTrip(s: bytes, rest: bytes)
    requires IsLexeme(s) && Stops(rest)
    ensures ParseNum(s + rest) == Some((Real(s), rest))
  {
    var sign, n, f, e := LexemeParts(s);
    PartsStop(s, rest, sign, n, f, e);
    ParseParts(s + rest, sign, n, f, e);
    hide HasParts, NotInteger, ParseNum;
    DropBoth(s, rest, |s|);
  }

  lemma RealRoundTrip(s: bytes, rest: bytes, depth: nat)
    requires IsLexeme(s) && Stops(rest)
    ensures ParseValue(Print(Real(s)) + rest, depth) == Some((Real(s), rest))
  {
    LexemeRoundTrip(s, rest);
    PrintStart(Real(s));
    hide ParseNum, ParseValue;
    NumStep(s + rest, depth);
  }

  // ---- values ----

  lemma LexemeStart(s: bytes)
    requires IsLexeme(s)
    ensures s != [] && (s[0] == MINUS || IsDigitByte(s[0]))
  {
    var sign, n, f, e := PartsOf(s);
  }

  lemma PrintStart(v: Value)
    requires Holds(v)
    ensures Print(v) != [] && !IsSpace(Print(v)[0]) && Print(v)[0] != CLOSE_ARR
    ensures v.Num? || v.Real? ==> Print(v)[0] == MINUS || IsDigitByte(Print(v)[0])
  {
    if v.Real? { LexemeStart(v.lexeme); }
    if v.Num? && v.n >= 0 { NatBytes(v.n); }
  }

  lemma NumRoundTrip(n: int, rest: bytes, depth: nat)
    requires IsInteger64(n) && Stops(rest)
    ensures ParseValue(Print(Num(n)) + rest, depth) == Some((Num(n), rest))
  {
    PrintStart(Num(n));
    var s := Print(Num(n)) + rest;
    assert s[0] == MINUS || IsDigitByte(s[0]);
    NumStep(s, depth);
    if n < 0 { NegativeRoundTrip(-n, rest); } else { NatRoundTrip(n, rest); }
  }

  lemma NumStep(s: bytes, depth: nat)
    requires s != [] && (s[0] == MINUS || IsDigitByte(s[0]))
    ensures ParseValue(s, depth) == ParseNum(s)
  {
    hide ParseNum;
    SkipNothing(s);
  }

  lemma SkipNothing(s: bytes)
    requires s == [] || !IsSpace(s[0])
    ensures SkipSpace(s) == s
  {
  }

  lemma WordRoundTrip(v: Value, rest: bytes, depth: nat)
    requires v.Null? || v.Bool?
    ensures ParseValue(Print(v) + rest, depth) == Some((v, rest))
  {
    var s := Print(v);
    assert s <= s + rest && (s + rest)[|s|..] == rest;
    SkipNothing(s + rest);
  }

  lemma StrValueRoundTrip(s: bytes, rest: bytes, depth: nat)
    ensures ParseValue(Print(Str(s)) + rest, depth) == Some((Str(s), rest))
  {
    hide ParseStr, Escape;
    var t := Print(Str(s)) + rest;
    StrRoundTrip(s, rest);
    SkipNothing(t);
    assert t[1..] == Escape(s) + [QUOTE] + rest;
  }

  /** Parsing what was printed gives the value back exactly when it nests less deep than allowed. */
  lemma {:induction false} ValueRoundTrip(v: Value, rest: bytes, depth: nat)
    requires Holds(v) && Stops(rest) && depth >= 1
    ensures ParseValue(Print(v) + rest, depth) == if Depth(v) < depth then Some((v, rest)) else None
    decreases v, 1
  {
    match v
    case Num(n) => NumRoundTrip(n, rest, depth);
    case Real(lexeme) => RealRoundTrip(lexeme, rest, depth);
    case Str(s) => StrValueRoundTrip(s, rest, depth);
    case Arr(items) => ArrRoundTrip(items, rest, depth);
    case Obj(fields) => ObjRoundTrip(fields, rest, depth);
    case _ => WordRoundTrip(v, rest, depth);
  }

  lemma {:induction false} ArrRoundTrip(items: Items, rest: bytes, depth: nat)
    requires HoldsItems(items) && Stops(rest) && depth >= 1
    ensures ParseValue(Print(Arr(items)) + rest, depth) ==
      if 1 + DepthItems(items) < depth then Some((Arr(items), rest)) else None
    decreases items, 1
  {
    hide ParseValue, ParseItems;
    if items.End? {
      OpenArr([CLOSE_ARR] + rest, depth);
      assert Print(Arr(items)) + rest == [OPEN_ARR] + ([CLOSE_ARR] + rest);
      assert ([CLOSE_ARR] + rest)[1..] == rest;
    } else {
      var t := PrintItems(items) + rest;
      assert Print(Arr(items)) + rest == [OPEN_ARR] + t;
      PrintStart(items.head);
      assert t[0] == Print(items.head)[0];
      OpenArr(t, depth);
      if depth > 1 { ItemsRoundTrip(items, rest, depth - 1); }
    }
  }

  lemma OpenArr(t: bytes, depth: nat)
    requires t != [] && !IsSpace(t[0]) && depth >= 1
    ensures ParseValue([OPEN_ARR] + t, depth) ==
      if depth == 1 then None
      else if t[0] == CLOSE_ARR then Some((Arr(End), t[1..]))
      else if ParseItems(t, depth - 1).None? then None
      else Some((Arr(ParseItems(t, depth - 1).value.0), ParseItems(t, depth - 1).value.1))
  {
    hide ParseItems;
    SkipNothing([OPEN_ARR] + t);
    assert ([OPEN_ARR] + t)[1..] == t;
    SkipNothing(t);
  }

  lemma LastItem(s: bytes, v: Value, rest: bytes, depth: nat)
    requires ParseValue(s, depth) == Some((v, [CLOSE_ARR] + rest))
    ensures ParseItems(s, depth) == Some((Item(v, End), rest))
  {
    hide ParseValue;
    SkipNothing([CLOSE_ARR] + rest);
    assert ([CLOSE_ARR] + rest)[1..] == rest;
  }

  lemma NextItem(s: bytes, v: Value, t: bytes, depth: nat)
    requires ParseValue(s, depth) == Some((v, [COMMA] + t))
    ensures ParseItems(s, depth) == AddItem(v, ParseItems(t, depth))
  {
    hide ParseValue;
    SkipNothing([COMMA] + t);
    assert ([COMMA] + t)[1..] == t;
  }

  lemma {:induction false} ItemsRoundTrip(items: Items, rest: bytes, depth: nat)
    requires items.Item? && HoldsItems(items) && depth >= 1
    ensures ParseItems(PrintItems(items) + rest, depth) ==
      if DepthItems(items) < depth then Some((items, rest)) else None
    decreases items, 0
  {
    hide ParseValue, ParseItems, Print;
    if items.tail.End? {
      assert PrintItems(items) + rest == Print(items.head) + ([CLOSE_ARR] + rest);
      ValueRoundTrip(items.head, [CLOSE_ARR] + rest, depth);
      if Depth(items.head) < depth { LastItem(PrintItems(items) + rest, items.head, rest, depth); }
    } else {
      var t := PrintItems(items.tail) + rest;
      assert PrintItems(items) + rest == Print(items.head) + ([COMMA] + t);
      ValueRoundTrip(items.head, [COMMA] + t, depth);
      ItemsRoundTrip(items.tail, rest, depth);
      if Depth(items.head) < depth { NextItem(PrintItems(items) + rest, items.head, t, depth); }
    }
    if Depth(items.head) >= depth { NoItem(PrintItems(items) + rest, depth); }
  }

  lemma NoItem(s: bytes, depth: nat)
    requires ParseValue(s, depth) == None
    ensures ParseItems(s, depth) == None
  {
    hide ParseValue;
  }

  lemma {:induction false} ObjRoundTrip(fields: Fields, rest: bytes, depth: nat)
    requires HoldsFields(fields) && Stops(rest) && depth >= 1
    ensures ParseValue(Print(Obj(fields)) + rest, depth) ==
      if 1 + DepthFields(fields) < depth then Some((Obj(fields), rest)) else None
    decreases fields, 1
  {
    hide ParseValue, ParseFields;
    if fields.NoFields? {
      OpenObj([CLOSE_OBJ] + rest, depth);
      assert Print(Obj(fields)) + rest == [OPEN_OBJ] + ([CLOSE_OBJ] + rest);
      assert ([CLOSE_OBJ] + rest)[1..] == rest;
    } else {
      var t := PrintFields(fields) + rest;
      assert Print(Obj(fields)) + rest == [OPEN_OBJ] + t;
      assert t[0] == QUOTE;
      OpenObj(t, depth);
      if depth > 1 { FieldsRoundTrip(fields, rest, depth - 1); }
    }
  }

  lemma OpenObj(t: bytes, depth: nat)
    requires t != [] && !IsSpace(t[0]) && depth >= 1
    ensures ParseValue([OPEN_OBJ] + t, depth) ==
      if depth == 1 then None
      else if t[0] == CLOSE_OBJ then Some((Obj(NoFields), t[1..]))
      else if ParseFields(t, depth - 1).None? then None
      else Some((Obj(ParseFields(t, depth - 1).value.0), ParseFields(t, depth - 1).value.1))
  {
    hide ParseFields;
    SkipNothing([OPEN_OBJ] + t);
    assert ([OPEN_OBJ] + t)[1..] == t;
    SkipNothing(t);
  }

  lemma {:induction false} FieldsRoundTrip(fields: Fields, rest: bytes, depth: nat)
    requires fields.Field? && HoldsFields(fields) && depth >= 1
    ensures ParseFields(PrintFields(fields) + rest, depth) ==
      if DepthFields(fields) < depth then Some((fields, rest)) else None
    decreases fields, 0
  {
    hide ParseValue, ParseFields, ParseStr, Print;
    if fields.rest.NoFields? {
      var value := Print(fields.value) + ([CLOSE_OBJ] + rest);
      assert PrintFields(fields) + rest == PrintStr(fields.key) + ([COLON] + value);
      ValueRoundTrip(fields.value, [CLOSE_OBJ] + rest, depth);
      if Depth(fields.value) < depth { LastField(fields.key, value, fields.value, rest, depth); }
      else { NoField(fields.key, value, depth); }
    } else {
      var t := PrintFields(fields.rest) + rest;
      var value := Print(fields.value) + ([COMMA] + t);
      assert PrintFields(fields) + rest == PrintStr(fields.key) + ([COLON] + value);
      ValueRoundTrip(fields.value, [COMMA] + t, depth);
      FieldsRoundTrip(fields.rest, rest, depth);
      if Depth(fields.value) < depth { NextField(fields.key, value, fields.value, t, depth); }
      else { NoField(fields.key, value, depth); }
    }
  }

  /** Reading a key and its colon leaves the parser at the member's value. */
  lemma KeyRead(key: bytes, value: bytes)
    ensures var s := PrintStr(key) + ([COLON] + value);
      && SkipSpace(s) == s && s[0] == QUOTE
      && ParseStr(s[1..]) == Some((key, [COLON] + value))
      && SkipSpace([COLON] + value) == [COLON] + value && ([COLON] + value)[1..] == value
  {
    hide ParseStr;
    var s := PrintStr(key) + ([COLON] + value);
    assert s[1..] == Escape(key) + [QUOTE] + ([COLON] + value);
    StrRoundTrip(key, [COLON] + value);
  }

  lemma NoField(key: bytes, value: bytes, depth: nat)
    requires ParseValue(value, depth) == None
    ensures ParseFields(PrintStr(key) + ([COLON] + value), depth) == None
  {
    hide ParseValue, ParseStr, PrintStr, SkipSpace;
    KeyRead(key, value);
  }

  lemma LastField(key: bytes, value: bytes, v: Value, rest: bytes, depth: nat)
    requires ParseValue(value, depth) == Some((v, [CLOSE_OBJ] + rest))
    ensures ParseFields(PrintStr(key) + ([COLON] + value), depth) == Some((Field(key, v, NoFields), rest))
  {
    hide ParseValue, ParseStr, PrintStr, SkipSpace;
    KeyRead(key, value);
    SkipNothing([CLOSE_OBJ] + rest);
    assert ([CLOSE_OBJ] + rest)[1..] == rest;
  }

  lemma NextField(key: bytes, value: bytes, v: Value, t: bytes, depth: nat)
    requires ParseValue(value, depth) == Some((v, [COMMA] + t))
    ensures ParseFields(PrintStr(key) + ([COLON] + value), depth) == AddField(key, v, ParseFields(t, depth))
  {
    hide ParseValue, ParseStr, PrintStr, SkipSpace, PutUnder;
    KeyRead(key, value);
    SkipNothing([COMMA] + t);
    assert ([COMMA] + t)[1..] == t;
  }

  /** The whole text of a value parses back to it, and to nothing when it nests deeper than 127 levels. */
  lemma RoundTrip(v: Value)
    requires Holds(v)
    ensures Parse(Print(v)) == if Depth(v) < RECURSION_LIMIT then Some(v) else None
  {
    ValueRoundTrip(v, [], RECURSION_LIMIT);
    assert Print(v) + [] == Print(v);
  }
}
