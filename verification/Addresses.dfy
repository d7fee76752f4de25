// The port name, MAC and address that all derive from a space's CID, and what each reads back as.
module Addresses {
  import opened Text

  function SpaceTap(cid: nat): string { "tap-space-" + Dec(cid) }

  function SpaceMac(cid: nat): string { "52:54:00:6d:59:" + Hex2(cid) }

  function SpaceIpv4(cid: nat): string { "10.59.0." + Dec(cid) }

  /** The octets those texts stand for. */
  function Mac(cid: nat): seq<nat> { [0x52, 0x54, 0, 0x6d, 0x59, cid] }

  function Ip(cid: nat): seq<nat> { [10, 59, 0, cid] }

  // ---- reading addresses back ----

  function ReadOctets(pieces: seq<string>, hex: bool): Option<seq<nat>> {
    if pieces == [] then Some([])
    else
      match (ReadOctet(pieces[0], hex), ReadOctets(pieces[1..], hex))
      case (Some(n), Some(rest)) => Some([n] + rest)
      case _ => None
  }

  function ReadOctet(s: string, hex: bool): Option<nat> {
    if s == [] then None
    else if hex then ReadHex(s)
    else if AllDigits(s) then Some(ReadDec(s)) else None
  }

  function ReadMac(s: string): Option<seq<nat>> { ReadOctets(SplitOn(s, ':'), true) }

  function ReadIp(s: string): Option<seq<nat>> { ReadOctets(SplitOn(s, '.'), false) }

  lemma OctetsOf(first: string, n: nat, rest: string, hex: bool, sep: char, octets: seq<nat>)
    requires sep !in first && ReadOctet(first, hex) == Some(n)
    requires ReadOctets(SplitOn(rest, sep), hex) == Some(octets)
    ensures ReadOctets(SplitOn(first + [sep] + rest, sep), hex) == Some([n] + octets)
  {
    hide ReadOctet, SplitOn;
    SplitPiece(first, rest, sep);
    assert ([first] + SplitOn(rest, sep))[1..] == SplitOn(rest, sep);
  }

  lemma LastOctet(s: string, n: nat, hex: bool, sep: char)
    requires sep !in s && ReadOctet(s, hex) == Some(n)
    ensures ReadOctets(SplitOn(s, sep), hex) == Some([n])
  {
    hide ReadOctet, SplitOn;
    SplitLast(s, sep);
    assert [s][1..] == [];
    var none: seq<nat> := [];
    assert ReadOctets([], hex) == Some(none) && [n] + none == [n];
  }

  lemma HexPair(d: char, e: char)
    requires HexCharValue(d).Some? && HexCharValue(e).Some?
    ensures ReadOctet([d, e], true) == Some(16 * HexCharValue(d).value + HexCharValue(e).value)
  {
    assert [d][..0] == "";
    assert ReadHex([d]) == Some(HexCharValue(d).value);
    assert [d, e][..1] == [d];
  }

  lemma NoColonInHex(n: nat)
    ensures ':' !in Hex2(n)
  {
    HexChars(n);
    assert forall c :: c in Hex2(n) ==> HexCharValue(c).Some?;
  }

  /** The text of a space's MAC reads back as the derived octets. */
  lemma MacReadsBack(cid: nat)
    ensures ReadMac(SpaceMac(cid)) == Some(Mac(cid))
  {
    hide ReadOctet, ReadOctets, SplitOn, Hex2;
    HexPair('5', '2');
    HexPair('5', '4');
    HexPair('0', '0');
    HexPair('6', 'd');
    HexPair('5', '9');
    Hex2IsOctet(cid);
    NoColonInHex(cid);
    var last := Hex2(cid);
    LastOctet(last, cid, true, ':');
    var s4, s3, s2, s1 := "59:" + last, "6d:59:" + last, "00:6d:59:" + last, "54:00:6d:59:" + last;
    var o5: seq<nat> := [cid];
    var o4 := [0x59] + o5;
    var o3 := [0x6d] + o4;
    var o2 := [0] + o3;
    var o1 := [0x54] + o2;
    assert s4 == "59" + [':'] + last;
    OctetsOf("59", 0x59, last, true, ':', o5);
    assert s3 == "6d" + [':'] + s4;
    OctetsOf("6d", 0x6d, s4, true, ':', o4);
    assert s2 == "00" + [':'] + s3;
    OctetsOf("00", 0, s3, true, ':', o3);
    assert s1 == "54" + [':'] + s2;
    OctetsOf("54", 0x54, s2, true, ':', o2);
    assert SpaceMac(cid) == "52" + [':'] + s1;
    OctetsOf("52", 0x52, s1, true, ':', o1);
    assert [0x52] + o1 == Mac(cid);
  }

  lemma Hex2IsOctet(n: nat)
    ensures ReadOctet(Hex2(n), true) == Some(n)
  {
    ReadHexOfHex2(n);
  }

  lemma DecIsOctet(n: nat)
    ensures ReadOctet(Dec(n), false) == Some(n) && '.' !in Dec(n)
  {
    ReadDecOfDec(n);
    assert AllDigits(Dec(n));
  }

  lemma SmallOctets()
    ensures ReadOctet("10", false) == Some(10) && ReadOctet("59", false) == Some(59) && ReadOctet("0", false) == Some(0)
  {
    assert "1"[..0] == "" && "5"[..0] == "" && "0"[..0] == "";
    assert ReadDec("1") == 1 && ReadDec("5") == 5;
    assert "10"[..1] == "1" && "59"[..1] == "5";
  }

  lemma IpReadsBack(cid: nat)
    ensures ReadIp(SpaceIpv4(cid)) == Some(Ip(cid))
  {
    hide ReadOctet, ReadOctets, SplitOn, Dec;
    SmallOctets();
    DecIsOctet(cid);
    var last := Dec(cid);
    LastOctet(last, cid, false, '.');
    var s2, s1 := "0." + last, "59.0." + last;
    var o3: seq<nat> := [cid];
    var o2 := [0] + o3;
    var o1 := [59] + o2;
    assert s2 == "0" + ['.'] + last;
    OctetsOf("0", 0, last, false, '.', o3);
    assert s1 == "59" + ['.'] + s2;
    OctetsOf("59", 59, s2, false, '.', o2);
    assert SpaceIpv4(cid) == "10" + ['.'] + s1;
    OctetsOf("10", 10, s1, false, '.', o1);
    assert [10] + o1 == Ip(cid);
  }

  /** Different spaces have different ports, MACs and addresses, and no space's port is the router's. */
  lemma AddressesInjective(c: nat, d: nat)
    ensures SpaceTap(c) != "tap-spaces"
    ensures SpaceTap(c)[..10] == "tap-space-" && SpaceTap(c)[10..] == Dec(c)
    ensures SpaceTap(c) == SpaceTap(d) ==> c == d
    ensures SpaceMac(c) == SpaceMac(d) ==> c == d
    ensures SpaceIpv4(c) == SpaceIpv4(d) ==> c == d
  {
    assert SpaceTap(c)[9] == '-' && "tap-spaces"[9] == 's';
    if SpaceTap(c) == SpaceTap(d) {
      assert Dec(c) == SpaceTap(c)[10..] == SpaceTap(d)[10..] == Dec(d);
      DecInjective(c, d);
    }
    MacReadsBack(c);
    MacReadsBack(d);
    IpReadsBack(c);
    IpReadsBack(d);
  }
}
