// The part of JSON (RFC 8259) the control socket needs, as serde_json prints and parses it: compact
// output, object keys in order, and a parser that refuses to nest deeper than its recursion limit.
module Json {
  import opened Text
  import opened Bytes

  datatype Value =
    | Null
    | Bool(b: bool)
    | Num(n: int)
    | Real(lexeme: bytes)       // a number that is not a 64-bit integer, kept as written
    | Str(s: bytes)
    | Arr(items: Items)
    | Obj(fields: Fields)

  datatype Items = End | Item(head: Value, tail: Items)

  datatype Fields = NoFields | Field(key: bytes, value: Value, rest: Fields)

  const QUOTE: byte := 34
  const COMMA: byte := 44
  const MINUS: byte := 45
  const COLON: byte := 58
  const OPEN_ARR: byte := 91
  const BACKSLASH: byte := 92
  const CLOSE_ARR: byte := 93
  const OPEN_OBJ: byte := 123
  const CLOSE_OBJ: byte := 125

  const RECURSION_LIMIT := 128

  // ---- printing ----

  function HexDigit(d: nat): byte
    requires d < 16
  {
    if d < 10 then 48 + d else 87 + d
  }

  function EscapeByte(b: byte): bytes {
    if b == QUOTE || b == BACKSLASH then [BACKSLASH, b]
    else if b == 8 then [BACKSLASH, 98]
    else if b == 9 then [BACKSLASH, 116]
    else if b == 10 then [BACKSLASH, 110]
    else if b == 12 then [BACKSLASH, 102]
    else if b == 13 then [BACKSLASH, 114]
    else if b < 32 then [BACKSLASH, 117, 48, 48, HexDigit(b / 16), HexDigit(b % 16)]
    else [b]
  }

  function Escape(s: bytes): bytes {
    if s == [] then [] else EscapeByte(s[0]) + Escape(s[1..])
  }

  function PrintStr(s: bytes): bytes { [QUOTE] + Escape(s) + [QUOTE] }

  function PrintInt(n: int): bytes {
    if n < 0 then [MINUS] + PrintNat(-n) else PrintNat(n)
  }

  function PrintNat(n: nat): bytes { Ascii(Dec(n)) }

  function Print(v: Value): bytes
    decreases v, 1
  {
    match v
    case Null => Ascii("null")
    case Bool(b) => if b then Ascii("true") else Ascii("false")
    case Num(n) => PrintInt(n)
    case Real(lexeme) => lexeme
    case Str(s) => PrintStr(s)
    case Arr(items) => [OPEN_ARR] + (if items.End? then [CLOSE_ARR] else PrintItems(items))
    case Obj(fields) => [OPEN_OBJ] + (if fields.NoFields? then [CLOSE_OBJ] else PrintFields(fields))
  }

  /** The items of a non-empty array, up to and including its closing bracket. */
  function PrintItems(items: Items): bytes
    requires items.Item?
    decreases items, 0
  {
    Print(items.head) + if items.tail.End? then [CLOSE_ARR] else [COMMA] + PrintItems(items.tail)
  }

  function PrintFields(fields: Fields): bytes
    requires fields.Field?
    decreases fields, 0
  {
    PrintStr(fields.key) + ([COLON] + (Print(fields.value) +
      if fields.rest.NoFields? then [CLOSE_OBJ] else [COMMA] + PrintFields(fields.rest)))
  }

  // ---- parsing ----

  predicate IsSpace(b: byte) { b == 32 || b == 9 || b == 10 || b == 13 }

  function SkipSpace(s: bytes): (r: bytes)
    ensures |r| <= |s|
  {
    if s != [] && IsSpace(s[0]) then SkipSpace(s[1..]) else s
  }

  predicate IsDigitByte(b: byte) { 48 <= b <= 57 }

  function DigitRun(s: bytes): (n: nat)
    ensures n <= |s|
    ensures forall i :: 0 <= i < n ==> IsDigitByte(s[i])
  {
    if s != [] && IsDigitByte(s[0]) then 1 + DigitRun(s[1..]) else 0
  }

  function ReadDigits(s: bytes): nat
    requires forall i :: 0 <= i < |s| ==> IsDigitByte(s[i])
  {
    if s == [] then 0
    else
      assert IsDigitByte(s[|s| - 1]);
      10 * ReadDigits(s[..|s| - 1]) + (s[|s| - 1] as int - 48)
  }

  function HexValue(b: byte): Option<nat> {
    if 48 <= b <= 57 then Some(b - 48)
    else if 65 <= b <= 70 then Some(b - 55)
    else if 97 <= b <= 102 then Some(b - 87)
    else None
  }

  function Hex4(s: bytes): Option<nat> {
    if |s| < 4 || HexValue(s[0]).None? || HexValue(s[1]).None? || HexValue(s[2]).None? || HexValue(s[3]).None?
    then None
    else
      Some(HexValue(s[0]).value * 4096 + HexValue(s[1]).value * 256 + HexValue(s[2]).value * 16
           + HexValue(s[3]).value)
  }

  /** The character a `\u` escape denotes, and how many bytes follow the `u`; surrogates come in pairs. */
  function UnicodeEscape(s: bytes): (r: Option<(bytes, nat)>)
    ensures r.Some? ==> r.value.1 <= |s|
  {
    match Hex4(s)
    case None => None
    case Some(n) =>
      if n < 0xD800 || 0xE000 <= n < 0x10000 then Some((EncodeChar(n), 4))
      else if 0xDC00 <= n || |s| < 10 || s[4] != BACKSLASH || s[5] != 117 then None
      else match Hex4(s[6..])
        case None => None
        case Some(m) =>
          if 0xDC00 <= m < 0xE000 && n < 0xDC00
          then Some((EncodeChar(0x10000 + (n - 0xD800) * 1024 + (m - 0xDC00)), 10))
          else None
  }

  function SimpleEscape(b: byte): Option<byte> {
    if b == QUOTE || b == BACKSLASH || b == 47 then Some(b)
    else if b == 98 then Some(8)
    else if b == 102 then Some(12)
    else if b == 110 then Some(10)
    else if b == 114 then Some(13)
    else if b == 116 then Some(9)
    else None
  }

  /** The rest of a string after its opening quote. */
  function ParseStr(s: bytes): (r: Option<(bytes, bytes)>)
    ensures r.Some? ==> |r.value.1| < |s|
    decreases |s|
  {
    if s == [] || s[0] < 32 then None
    else if s[0] == QUOTE then Some(([], s[1..]))
    else if s[0] != BACKSLASH then Prepend([s[0]], ParseStr(s[1..]))
    else if |s| < 2 then None
    else if s[1] == 117 then
      match UnicodeEscape(s[2..])
      case None => None
      case Some((c, n)) => Prepend(c, ParseStr(s[2 + n..]))
    else
      match SimpleEscape(s[1])
      case None => None
      case Some(b) => Prepend([b], ParseStr(s[2..]))
  }

  function Prepend(c: bytes, r: Option<(bytes, bytes)>): Option<(bytes, bytes)> {
    match r
    case None => None
    case Some((s, rest)) => Some((c + s, rest))
  }

  /** Length of a fraction or exponent, 0 when there is none, None when it is malformed. */
  function FractionLen(s: bytes): (r: Option<nat>)
    ensures r.Some? ==> r.value <= |s|
  {
    if s == [] || s[0] != 46 then Some(0)
    else if DigitRun(s[1..]) == 0 then None
    else Some(1 + DigitRun(s[1..]))
  }

  function ExponentLen(s: bytes): (r: Option<nat>)
    ensures r.Some? ==> r.value <= |s|
  {
    if s == [] || (s[0] != 69 && s[0] != 101) then Some(0)
    else
      var sign := if |s| > 1 && (s[1] == 43 || s[1] == 45) then 2 else 1;
      if DigitRun(s[sign..]) == 0 then None else Some(sign + DigitRun(s[sign..]))
  }

  predicate IsInteger64(n: int) { -0x8000_0000_0000_0000 <= n < 0x1_0000_0000_0000_0000 }

  function ParseNum(s: bytes): (r: Option<(Value, bytes)>)
    ensures r.Some? ==> |r.value.1| < |s|
  {
    var sign := if s != [] && s[0] == MINUS then 1 else 0;
    var n := DigitRun(s[sign..]);
    if n == 0 || (s[sign] == 48 && n > 1) then None
    else
      match FractionLen(s[sign + n..])
      case None => None
      case Some(f) =>
        match ExponentLen(s[sign + n + f..])
        case None => None
        case Some(e) =>
          var magnitude: int := ReadDigits(s[sign..][..n]);
          var value: int := if sign == 1 then -magnitude else magnitude;
          var end := sign + n + f + e;
          if f == 0 && e == 0 && IsInteger64(value) && !(sign == 1 && magnitude == 0)
          then Some((Num(value), s[end..]))
          else Some((Real(s[..end]), s[end..]))
  }

  function Literal(s: bytes, word: bytes, v: Value): (r: Option<(Value, bytes)>)
    requires word != []
    ensures r.Some? ==> |r.value.1| < |s|
  {
    if word <= s then Some((v, s[|word|..])) else None
  }

  /** `depth` is how many more levels may be opened, plus one. */
  function ParseValue(s: bytes, depth: nat): (r: Option<(Value, bytes)>)
    ensures r.Some? ==> |r.value.1| < |s|
    decreases |s|, 1
  {
    var s := SkipSpace(s);
    if s == [] then None
    else if s[0] == 110 then Literal(s, Ascii("null"), Null)
    else if s[0] == 116 then Literal(s, Ascii("true"), Bool(true))
    else if s[0] == 102 then Literal(s, Ascii("false"), Bool(false))
    else if s[0] == QUOTE then
      match ParseStr(s[1..])
      case None => None
      case Some((t, rest)) => Some((Str(t), rest))
    else if s[0] == OPEN_ARR then
      if depth <= 1 then None
      else
        var t := SkipSpace(s[1..]);
        if t != [] && t[0] == CLOSE_ARR then Some((Arr(End), t[1..]))
        else
          match ParseItems(t, depth - 1)
          case None => None
          case Some((items, rest)) => Some((Arr(items), rest))
    else if s[0] == OPEN_OBJ then
      if depth <= 1 then None
      else
        var t := SkipSpace(s[1..]);
        if t != [] && t[0] == CLOSE_OBJ then Some((Obj(NoFields), t[1..]))
        else
          match ParseFields(t, depth - 1)
          case None => None
          case Some((fields, rest)) => Some((Obj(fields), rest))
    else ParseNum(s)
  }

  function ParseItems(s: bytes, depth: nat): (r: Option<(Items, bytes)>)
    ensures r.Some? ==> |r.value.1| < |s|
    decreases |s|, 2
  {
    match ParseValue(s, depth)
    case None => None
    case Some((v, rest)) =>
      var t := SkipSpace(rest);
      if t == [] then None
      else if t[0] == CLOSE_ARR then Some((Item(v, End), t[1..]))
      else if t[0] != COMMA then None
      else AddItem(v, ParseItems(t[1..], depth))
  }

  function AddItem(v: Value, r: Option<(Items, bytes)>): Option<(Items, bytes)> {
    match r
    case None => None
    case Some((items, rest)) => Some((Item(v, items), rest))
  }

  function ParseFields(s: bytes, depth: nat): (r: Option<(Fields, bytes)>)
    ensures r.Some? ==> |r.value.1| < |s|
    decreases |s|, 2
  {
    var s := SkipSpace(s);
    if s == [] || s[0] != QUOTE then None
    else
      match ParseStr(s[1..])
      case None => None
      case Some((key, afterKey)) =>
        var c := SkipSpace(afterKey);
        if c == [] || c[0] != COLON then None
        else
          match ParseValue(c[1..], depth)
          case None => None
          case Some((v, rest)) =>
            var t := SkipSpace(rest);
            if t == [] then None
            else if t[0] == CLOSE_OBJ then Some((Field(key, v, NoFields), t[1..]))
            else if t[0] != COMMA then None
            else AddField(key, v, ParseFields(t[1..], depth))
  }

  function AddField(key: bytes, v: Value, r: Option<(Fields, bytes)>): Option<(Fields, bytes)> {
    match r
    case None => None
    case Some((fields, rest)) => Some((PutUnder(key, v, fields), rest))
  }

  /** Enters an earlier member into the map of the later ones, which win on equal keys. */
  function PutUnder(key: bytes, v: Value, fields: Fields): Fields {
    match fields
    case NoFields => Field(key, v, NoFields)
    case Field(k, w, rest) =>
      if LexLess(key, k) then Field(key, v, fields)
      else if key == k then fields
      else Field(k, w, PutUnder(key, v, rest))
  }

  function Parse(s: bytes): Option<Value> {
    match ParseValue(s, RECURSION_LIMIT)
    case None => None
    case Some((v, rest)) => if SkipSpace(rest) == [] then Some(v) else None
  }

  function Get(v: Value, key: bytes): Option<Value> {
    if v.Obj? then Lookup(v.fields, key) else None
  }

  function Lookup(fields: Fields, key: bytes): Option<Value> {
    match fields
    case NoFields => None
    case Field(k, v, rest) => if k == key then Some(v) else Lookup(rest, key)
  }

  // ---- the values serde_json can hold, and how deep they nest ----

  /** The text of a number other than a 64-bit integer, and nothing else. */
  predicate IsLexeme(s: bytes) { ParseNum(s) == Some((Real(s), [])) }

  predicate Holds(v: Value) {
    match v
    case Num(n) => IsInteger64(n)
    case Real(lexeme) => IsLexeme(lexeme)
    case Str(s) => ValidUtf8(s)
    case Arr(items) => HoldsItems(items)
    case Obj(fields) => HoldsFields(fields)
    case _ => true
  }

  predicate HoldsItems(items: Items) {
    items.Item? ==> Holds(items.head) && HoldsItems(items.tail)
  }

  predicate HoldsFields(fields: Fields) {
    fields.Field? ==>
      && ValidUtf8(fields.key) && Holds(fields.value) && HoldsFields(fields.rest)
      && (fields.rest.Field? ==> LexLess(fields.key, fields.rest.key))
  }

  function Max(a: nat, b: nat): nat { if a < b then b else a }

  function Depth(v: Value): nat {
    match v
    case Arr(items) => 1 + DepthItems(items)
    case Obj(fields) => 1 + DepthFields(fields)
    case _ => 0
  }

  function DepthItems(items: Items): nat {
    if items.End? then 0 else Max(Depth(items.head), DepthItems(items.tail))
  }

  function DepthFields(fields: Fields): nat {
    if fields.NoFields? then 0 else Max(Depth(fields.value), DepthFields(fields.rest))
  }
}
