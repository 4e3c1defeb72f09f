/** How stored addresses, ports and interface names are spelled where rules are compared as text. */
module AddressText {
  import opened Bytes
  import opened Rules

  const DIGITS: string := "0123456789abcdef"

  /** A number in base 10 or 16, without leading zeros. */
  function NumText(n: nat, base: nat): string
    requires 2 <= base <= 16
  {
    if n < base then [DIGITS[n]] else NumText(n / base, base) + [DIGITS[n % base]]
  }

  function Dec(n: nat): string {
    NumText(n, 10)
  }

  function Joined(parts: seq<string>, sep: string): string {
    if parts == [] then ""
    else if |parts| == 1 then parts[0]
    else parts[0] + sep + Joined(parts[1..], sep)
  }

  // ---- addresses ----------------------------------------------------------------------------

  /** The zero groups from the front on. */
  function ZeroRun(groups: seq<nat>): (n: nat)
    ensures n <= |groups|
  {
    if groups == [] || groups[0] != 0 then 0 else 1 + ZeroRun(groups[1..])
  }

  /** Start of the first of the longest runs of zero groups. */
  function LongestRun(groups: seq<nat>): (s: nat)
    ensures s <= |groups|
  {
    if groups == [] then 0
    else
      var s := LongestRun(groups[1..]) + 1;
      if ZeroRun(groups) >= ZeroRun(groups[s..]) then 0 else s
  }

  function GroupTexts(groups: seq<nat>): seq<string> {
    seq(|groups|, i requires 0 <= i < |groups| => NumText(groups[i], 16))
  }

  /** The form of section 4 of RFC 5952: a run of at least two zero groups becomes "::". */
  function GroupsText(groups: seq<nat>): string {
    var s := LongestRun(groups);
    var n := ZeroRun(groups[s..]);
    if n < 2 then Joined(GroupTexts(groups), ":")
    else Joined(GroupTexts(groups[..s]), ":") + "::" + Joined(GroupTexts(groups[s + n..]), ":")
  }

  function PairValue(hi: int, lo: int): (g: nat)
    requires 0 <= hi < 256 && 0 <= lo < 256
    ensures g < 65536
  {
    hi * 256 + lo
  }

  function Groups(addr: seq<Byte>): (g: seq<nat>)
    ensures |g| == |addr| / 2
  {
    seq(|addr| / 2, i requires 0 <= i < |addr| / 2 => PairValue(addr[2 * i], addr[2 * i + 1]))
  }

  /** Dotted IPv4 or IPv6. An IPv4-mapped address is stored as the four bytes it spells. */
  function HostText(addr: seq<Byte>): string {
    if |addr| == 4 then Joined([Dec(addr[0]), Dec(addr[1]), Dec(addr[2]), Dec(addr[3])], ".")
    else GroupsText(Groups(addr))
  }

  /** The wildcard is spelled like the prefix of length zero of the family. */
  function IpText(ip: Ip, v6: bool): string {
    match ip
    case AnyIp => if v6 then "::/0" else "0.0.0.0/0"
    case Net(addr, ones) => if ones == 8 * |addr| then HostText(addr) else HostText(addr) + "/" + Dec(ones)
    case BadIp(text) => text
  }

  // ---- ports, interfaces, directions -------------------------------------------------------------

  function RangeText(p: PortRange): string {
    Dec(p.lo) + (if p.hi != p.lo then ":" + Dec(p.hi) else "")
    + match p.proto
      case TcpPort => "/tcp"
      case UdpPort => "/udp"
      case _ => ""
  }

  function PortsText(ports: seq<PortRange>): string {
    if ports == [] then "any" else Joined(seq(|ports|, i requires 0 <= i < |ports| => RangeText(ports[i])), ",")
  }

  function DirText(d: Direction): string {
    match d
    case In => "in"
    case Out => "out"
    case Routed => "routed"
  }

  function NameText(n: Name): (s: string)
    ensures |s| == |n|
  {
    seq(|n|, i requires 0 <= i < |n| => n[i] as int as char)
  }

  // ---- both wildcards --------------------------------------------------------------------------

  const ANYWHERE4: Ip := Net(Zeros(4), 0)
  const ANYWHERE6: Ip := Net(Zeros(16), 0)

  lemma JoinTwo(a: string, rest: seq<string>, sep: string)
    requires rest != []
    ensures Joined([a] + rest, sep) == a + sep + Joined(rest, sep)
  {
    assert ([a] + rest)[1..] == rest;
  }

  lemma ZeroAddress4()
    ensures HostText(Zeros(4)) == "0.0.0.0"
  {
    var z := "0";
    assert Dec(0) == z;
    JoinTwo(z, [z], ".");
    JoinTwo(z, [z, z], ".");
    JoinTwo(z, [z, z, z], ".");
    assert [z] + [z] == [z, z] && [z] + [z, z] == [z, z, z] && [z] + [z, z, z] == [z, z, z, z];
    assert z + "." + z == "0.0" && z + "." + "0.0" == "0.0.0" && z + "." + "0.0.0" == "0.0.0.0";
  }

  lemma {:induction false} AllZeroRun(groups: seq<nat>)
    requires forall i :: 0 <= i < |groups| ==> groups[i] == 0
    ensures ZeroRun(groups) == |groups| && LongestRun(groups) == 0
  {
    if groups != [] {
      AllZeroRun(groups[1..]);
    }
  }

  lemma ZeroGroups(groups: seq<nat>)
    requires |groups| == 8 && forall i :: 0 <= i < |groups| ==> groups[i] == 0
    ensures GroupsText(groups) == "::"
  {
    AllZeroRun(groups);
    assert groups[0..] == groups && groups[..0] == [] && groups[8..] == [];
    assert GroupTexts([]) == [];
  }

  lemma ZeroAddress6()
    ensures HostText(Zeros(16)) == "::"
  {
    ZeroGroups(Groups(Zeros(16)));
  }

  lemma ZeroPrefix(addr: seq<Byte>)
    requires addr != []
    ensures IpText(Net(addr, 0), false) == HostText(addr) + "/0"
  {
    assert Dec(0) == "0";
    assert HostText(addr) + "/" + "0" == HostText(addr) + ("/" + "0");
    assert "/" + "0" == "/0";
  }

  lemma Anywhere4()
    ensures IpText(ANYWHERE4, false) == "0.0.0.0/0"
  {
    ZeroAddress4();
    ZeroPrefix(Zeros(4));
  }

  lemma Anywhere6()
    ensures IpText(ANYWHERE6, true) == "::/0"
  {
    ZeroAddress6();
    ZeroPrefix(Zeros(16));
  }

  /** The text of an explicit prefix of length zero is that of the wildcard. */
  lemma AnywhereText(v6: bool)
    ensures IpText(if v6 then ANYWHERE6 else ANYWHERE4, v6) == IpText(AnyIp, v6)
  {
    Anywhere4();
    Anywhere6();
  }

  // ---- which zeros are left out -----------------------------------------------------------------------

  predicate ZerosFrom(groups: seq<nat>, s: nat, n: nat) {
    s + n <= |groups| && forall i :: s <= i < s + n ==> groups[i] == 0
  }

  lemma {:induction false} RunZeros(groups: seq<nat>, n: nat)
    ensures ZerosFrom(groups, 0, n) <==> n <= ZeroRun(groups)
  {
    if groups != [] && groups[0] == 0 && n > 0 {
      RunZeros(groups[1..], n - 1);
      assert forall i :: 1 <= i < |groups| ==> groups[i] == groups[1..][i - 1];
      assert forall i :: 0 <= i < |groups[1..]| ==> groups[1..][i] == groups[i + 1];
    }
  }

  lemma RunFrom(groups: seq<nat>, s: nat, n: nat)
    requires s <= |groups|
    ensures ZerosFrom(groups, s, n) <==> n <= ZeroRun(groups[s..])
  {
    RunZeros(groups[s..], n);
    assert forall i :: s <= i < |groups| ==> groups[i] == groups[s..][i - s];
    assert forall i :: 0 <= i < |groups| - s ==> groups[s..][i] == groups[i + s];
  }

  lemma {:induction false} LongestSays(groups: seq<nat>, i: nat)
    requires i <= |groups|
    ensures var s := LongestRun(groups);
      ZeroRun(groups[i..]) <= ZeroRun(groups[s..]) && (i < s ==> ZeroRun(groups[i..]) < ZeroRun(groups[s..]))
  {
    if groups != [] {
      var s := LongestRun(groups[1..]);
      assert groups[1..][s..] == groups[s + 1..] && groups[0..] == groups;
      if i > 0 {
        LongestSays(groups[1..], i - 1);
        assert groups[1..][i - 1..] == groups[i..];
      }
    }
  }

  /** The first of the longest runs of at least two zero groups is left out, and nothing without. */
  lemma ZerosLeftOut(groups: seq<nat>, s: nat, n: nat)
    requires ZerosFrom(groups, s, n)
    requires forall i: nat, m: nat :: ZerosFrom(groups, i, m) ==> m <= n && (m == n > 0 ==> s <= i)
    ensures n <= 1 ==> GroupsText(groups) == Joined(GroupTexts(groups), ":")
    ensures n >= 2 ==>
      GroupsText(groups) == Joined(GroupTexts(groups[..s]), ":") + "::" + Joined(GroupTexts(groups[s + n..]), ":")
  {
    var t := LongestRun(groups);
    RunFrom(groups, s, n);
    RunFrom(groups, t, ZeroRun(groups[t..]));
    LongestSays(groups, s);
  }

  // ---- which texts can be told apart ---------------------------------------------------------------

  predicate Without(s: string, c: char) {
    forall i :: 0 <= i < |s| ==> s[i] != c
  }

  predicate AllDigits(s: string) {
    forall i :: 0 <= i < |s| ==> '0' <= s[i] <= '9'
  }

  lemma {:induction false} NumNoSpace(n: nat, base: nat)
    requires 2 <= base <= 16
    ensures Without(NumText(n, base), ' ')
  {
    DigitNoSpace(n % base);
    if n >= base {
      NumNoSpace(n / base, base);
    }
  }

  lemma DigitNoSpace(d: nat)
    requires d < 16
    ensures DIGITS[d] != ' '
  {
  }

  lemma {:induction false} DecDigits(n: nat)
    ensures AllDigits(Dec(n))
  {
    if n >= 10 {
      DecDigits(n / 10);
    }
  }

  lemma {:induction false} JoinedNoSpace(parts: seq<string>, sep: string)
    requires Without(sep, ' ') && forall i :: 0 <= i < |parts| ==> Without(parts[i], ' ')
    ensures Without(Joined(parts, sep), ' ')
  {
    if |parts| > 1 {
      JoinedNoSpace(parts[1..], sep);
    }
  }

  lemma GroupTextsNoSpace(groups: seq<nat>)
    ensures Without(Joined(GroupTexts(groups), ":"), ' ')
  {
    forall i | 0 <= i < |groups| ensures Without(GroupTexts(groups)[i], ' ') {
      NumNoSpace(groups[i], 16);
    }
    JoinedNoSpace(GroupTexts(groups), ":");
  }

  lemma DottedNoSpace(a: nat, b: nat, c: nat, d: nat)
    ensures Without(Joined([Dec(a), Dec(b), Dec(c), Dec(d)], "."), ' ')
  {
    NumNoSpace(a, 10);
    NumNoSpace(b, 10);
    NumNoSpace(c, 10);
    NumNoSpace(d, 10);
    JoinedNoSpace([Dec(a), Dec(b), Dec(c), Dec(d)], ".");
  }

  lemma GroupsNoSpace(groups: seq<nat>)
    ensures Without(GroupsText(groups), ' ')
  {
    var s := LongestRun(groups);
    GroupTextsNoSpace(groups);
    GroupTextsNoSpace(groups[..s]);
    GroupTextsNoSpace(groups[s + ZeroRun(groups[s..])..]);
  }

  lemma HostNoSpace(addr: seq<Byte>)
    ensures Without(HostText(addr), ' ')
  {
    if |addr| == 4 {
      DottedNoSpace(addr[0], addr[1], addr[2], addr[3]);
    } else {
      GroupsNoSpace(Groups(addr));
    }
  }

  lemma IpNoSpace(ip: Ip, v6: bool)
    requires ip.BadIp? ==> Without(ip.text, ' ')
    ensures Without(IpText(ip, v6), ' ')
  {
    if ip.Net? {
      HostNoSpace(ip.bytes);
      NumNoSpace(ip.ones, 10);
    }
  }

  lemma PortsNoSpace(ports: seq<PortRange>)
    ensures Without(PortsText(ports), ' ')
  {
    if ports != [] {
      var parts := seq(|ports|, i requires 0 <= i < |ports| => RangeText(ports[i]));
      forall i | 0 <= i < |parts| ensures Without(parts[i], ' ') {
        NumNoSpace(ports[i].lo, 10);
        NumNoSpace(ports[i].hi, 10);
      }
      JoinedNoSpace(parts, ",");
    }
  }

  /** A text ends at its first space. */
  lemma SplitAtSpace(a: string, x: string, b: string, y: string)
    requires Without(a, ' ') && Without(b, ' ') && a + " " + x == b + " " + y
    ensures a == b && x == y
  {
    var s := a + " " + x;
    assert s[|a|] == ' ' && s[|b|] == ' ';
    assert forall i :: 0 <= i < |a| ==> s[i] == a[i];
    assert forall i :: 0 <= i < |b| ==> s[i] == b[i];
    assert |a| == |b|;
    assert a == s[..|a|] && b == s[..|b|];
    assert x == s[|a| + 1..] && y == s[|b| + 1..];
  }

  /** One word that is not spelled like a list of ports. */
  predicate ProfileWord(name: string) {
    && Without(name, ' ') && Without(name, ',') && Without(name, ':') && Without(name, '/')
    && !AllDigits(name) && name != "any"
  }

  lemma PortsNoWord(ports: seq<PortRange>, name: string)
    requires ProfileWord(name)
    ensures PortsText(ports) != name
  {
    var text := PortsText(ports);
    if |ports| == 1 {
      RangeNoWord(ports[0], name);
    } else if |ports| > 1 {
      assert text[|RangeText(ports[0])|] == ',';
    }
  }

  lemma RangeNoWord(p: PortRange, name: string)
    requires ProfileWord(name)
    ensures RangeText(p) != name
  {
    var text, n := RangeText(p), |Dec(p.lo)|;
    if p.hi != p.lo {
      assert text[n] == ':';
    } else if p.proto == TcpPort || p.proto == UdpPort {
      assert text[n] == '/';
    } else {
      DecDigits(p.lo);
      assert text == Dec(p.lo);
    }
  }
}
