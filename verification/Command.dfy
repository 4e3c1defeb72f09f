/** The rule command language: the printer of canonical commands and the argument parser. */
module Command {
  import opened Bytes
  import opened Rules
  import opened PortOrder
  import opened AddressText

  // ---- tokens ------------------------------------------------------------------------

  /** The words of the grammar. */
  datatype Keyword =
    | RouteKey | RuleKey | InKey | OutKey | OnKey | LogKey | LogAllKey | CommentKey
    | FromKey | ToKey | SetKey | PortKey | ProtoKey | TypeKey | AppKey | AnyKey

  function Spelling(k: Keyword): string {
    match k
    case RouteKey => "route"
    case RuleKey => "rule"
    case InKey => "in"
    case OutKey => "out"
    case OnKey => "on"
    case LogKey => "log"
    case LogAllKey => "log-all"
    case CommentKey => "comment"
    case FromKey => "from"
    case ToKey => "to"
    case SetKey => "set"
    case PortKey => "port"
    case ProtoKey => "proto"
    case TypeKey => "type"
    case AppKey => "app"
    case AnyKey => "any"
  }

  const KEYWORDS: seq<Keyword> :=
    [RouteKey, RuleKey, InKey, OutKey, OnKey, LogKey, LogAllKey, CommentKey,
     FromKey, ToKey, SetKey, PortKey, ProtoKey, TypeKey, AppKey, AnyKey]

  datatype Item = One(n: nat) | Between(lo: nat, hi: nat)

  /** One argument by its shape: a word of the grammar in any letter case (exact when in
      lower case), a set reference "set:NAME", a port list with an optional protocol, an
      address in canonical form, or any other text. */
  datatype Token =
    | Word(key: Keyword, exact: bool, text: string)
    | Plain(text: string)
    | SetRef(name: string)
    | Ports(items: seq<Item>, proto: Option<string>)
    | Address(ip: Ip)

  type Args = seq<Token>

  function LowerChar(c: char): char {
    if 'A' <= c <= 'Z' then c + 32 as char else c
  }

  function Lower(s: string): string {
    seq(|s|, i requires 0 <= i < |s| => LowerChar(s[i]))
  }

  /** The first keyword in the list that s spells, whatever its case. */
  function KeywordOf(s: string, keys: seq<Keyword>): Option<Keyword> {
    if keys == [] then None
    else if Lower(s) == Spelling(keys[0]) then Some(keys[0])
    else KeywordOf(s, keys[1..])
  }

  /** The token of a name or a comment. */
  function Lex(s: string): Token {
    match KeywordOf(s, KEYWORDS)
    case Some(k) => Word(k, s == Spelling(k), s)
    case None => if "set:" <= s then SetRef(s[4..]) else Plain(s)
  }

  function Key(k: Keyword): Token {
    Word(k, true, Spelling(k))
  }

  /** The spelling of a token; numbers and addresses keep none. */
  function TextOf(t: Token): Option<string> {
    match t
    case Word(_, _, s) => Some(s)
    case Plain(s) => Some(s)
    case SetRef(name) => Some("set:" + name)
    case _ => None
  }

  predicate Is(t: Token, k: Keyword) {
    t.Word? && t.exact && t.key == k
  }

  /** The comparison that ignores letter case. */
  predicate IsLower(t: Token, k: Keyword) {
    t.Word? && t.key == k
  }

  /** First position of a keyword, or -1. */
  function IndexOf(argv: Args, k: Keyword): (i: int)
    ensures -1 <= i < |argv|
    ensures i >= 0 ==> Is(argv[i], k)
    ensures forall j :: 0 <= j < |argv| && (i < 0 || j < i) ==> !Is(argv[j], k)
  {
    if argv == [] then -1
    else if Is(argv[0], k) then 0
    else
      var i := IndexOf(argv[1..], k);
      assert forall j :: 1 <= j < |argv| ==> argv[j] == argv[1..][j - 1];
      if i < 0 then -1 else i + 1
  }

  function CountOf(argv: Args, k: Keyword): nat {
    if argv == [] then 0
    else CountOf(argv[..|argv| - 1], k) + if Is(argv[|argv| - 1], k) then 1 else 0
  }

  /** The loop behind IndexOf. */
  method IndexTok(argv: Args, k: Keyword) returns (i: int)
    ensures i == IndexOf(argv, k)
  {
    i := 0;
    while i < |argv|
      invariant 0 <= i <= |argv|
      invariant forall j :: 0 <= j < i ==> !Is(argv[j], k)
    {
      if Is(argv[i], k) {
        return;
      }
      i := i + 1;
    }
    i := -1;
  }

  method CountTok(argv: Args, k: Keyword) returns (n: nat)
    ensures n == CountOf(argv, k)
  {
    n := 0;
    for i := 0 to |argv|
      invariant n == CountOf(argv[..i], k)
    {
      assert argv[..i + 1][..i] == argv[..i];
      if Is(argv[i], k) {
        n := n + 1;
      }
    }
    assert argv[..|argv|] == argv;
  }

  // ---- words of the joined command line ----------------------------------------------------

  /** A text split at its spaces. */
  function Words(s: string): (w: seq<string>)
    ensures |w| >= 1
  {
    if s == "" then [""]
    else
      var w := Words(s[1..]);
      if s[0] == ' ' then [""] + w else [[s[0]] + w[0]] + w[1..]
  }

  function LexAll(words: seq<string>): Args {
    seq(|words|, i requires 0 <= i < |words| => Lex(words[i]))
  }

  /** The words of one argument: only a name or a comment can hold several. */
  function Pieces(t: Token): Args {
    if t.Plain? then LexAll(Words(t.text)) else [t]
  }

  /** The words of the arguments joined by spaces. */
  function JoinedWords(argv: Args): Args {
    if argv == [] then [] else Pieces(argv[0]) + JoinedWords(argv[1..])
  }

  /** The joined text contains the word between spaces. */
  predicate HasInner(ws: Args, k: Keyword) {
    exists i :: 0 < i < |ws| - 1 && Is(ws[i], k)
  }

  /** It contains two adjacent words between spaces. */
  predicate HasPair(ws: Args, first: Keyword, second: Keyword) {
    exists i :: 0 < i < |ws| - 2 && Is(ws[i], first) && Is(ws[i + 1], second)
  }

  // ---- names, protocols and ports -----------------------------------------------------------

  predicate NameChar(c: char) {
    'a' <= c <= 'z' || 'A' <= c <= 'Z' || '0' <= c <= '9'
    || c == '_' || c == '-' || c == '.' || c == '+' || c == ',' || c == '=' || c == '%' || c == '@'
  }

  predicate ValidIface(name: string) {
    0 < |name| <= 15 && name != "." && name != ".." && forall i :: 0 <= i < |name| ==> NameChar(name[i])
  }

  function NameOf(text: string): Name
    requires ValidIface(text)
  {
    seq(|text|, i requires 0 <= i < |text| => text[i] as int as Byte)
  }

  function ActionWord(a: Action): string {
    match a
    case Allow => "allow"
    case Deny => "deny"
    case Reject => "reject"
    case Limit => "limit"
    case UnknownAction => ""
  }

  function ActionOf(t: Token): Option<Action> {
    if !t.Plain? then None
    else if t.text == "allow" then Some(Allow)
    else if t.text == "deny" then Some(Deny)
    else if t.text == "reject" then Some(Reject)
    else if t.text == "limit" then Some(Limit)
    else None
  }

  function ProtoWord(p: Proto): string {
    match p
    case AnyProto => "any"
    case Tcp => "tcp"
    case Udp => "udp"
    case Ah => "ah"
    case Esp => "esp"
    case Gre => "gre"
    case Vrrp => "vrrp"
    case Ipv6 => "ipv6"
    case Igmp => "igmp"
    case Icmp => "icmp"
    case Icmpv6 => "icmpv6"
    case UnknownProto => ""
  }

  /** "any" and the supported protocols. */
  function ProtoOf(s: string): (p: Option<Proto>)
    ensures p.Some? ==> p.value != UnknownProto && ProtoWord(p.value) == s
  {
    if s == "any" then Some(AnyProto)
    else if s == "tcp" then Some(Tcp)
    else if s == "udp" then Some(Udp)
    else if s == "ah" then Some(Ah)
    else if s == "esp" then Some(Esp)
    else if s == "gre" then Some(Gre)
    else if s == "vrrp" then Some(Vrrp)
    else if s == "ipv6" then Some(Ipv6)
    else if s == "igmp" then Some(Igmp)
    else if s == "icmp" then Some(Icmp)
    else if s == "icmpv6" then Some(Icmpv6)
    else None
  }

  predicate Portless(p: Proto) {
    p != AnyProto && p != Tcp && p != Udp
  }

  predicate Ipv4Only(p: Proto) {
    p == Ipv6 || p == Igmp || p == Icmp
  }

  function Colons(items: seq<Item>): nat {
    if items == [] then 0
    else Colons(items[..|items| - 1]) + if items[|items| - 1].Between? then 1 else 0
  }

  predicate ItemOk(x: Item) {
    match x
    case One(n) => 1 <= n <= 65535
    case Between(lo, hi) => 1 <= lo < hi <= 65535
  }

  function RangeOf(x: Item): PortRange {
    match x
    case One(n) => PortRange(n, n, Blank)
    case Between(lo, hi) => PortRange(lo, hi, Blank)
  }

  /** At most 14 commas and colons, every number in 1..65535, ranges strictly increasing. */
  function ParseItems(items: seq<Item>): Result<seq<PortRange>> {
    if items == [] || |items| - 1 + Colons(items) > 14 || exists i :: 0 <= i < |items| && !ItemOk(items[i]) then Err
    else Ok(seq(|items|, i requires 0 <= i < |items| => RangeOf(items[i])))
  }

  // ---- the printer ----------------------------------------------------------------------------

  function ItemOf(p: PortRange): Item {
    if p.lo == p.hi then One(p.lo) else Between(p.lo, p.hi)
  }

  /** The printed port list; an empty one prints as "any". */
  function PortToken(ports: seq<PortRange>, proto: Option<string>): Token {
    Ports(seq(|ports|, i requires 0 <= i < |ports| => ItemOf(ports[i])), proto)
  }

  /** The wildcard, or an address that prints like it. */
  predicate PrintsAny(a: AddrSpec) {
    a.setName == "" && (a.ip == AnyIp || (a.ip.Net? && a.ip.ones == 0))
  }

  function LocTokens(a: AddrSpec): Args {
    if a.setName != "" then [Key(SetKey), Lex(a.setName)]
    else if PrintsAny(a) then [Key(AnyKey)]
    else [Address(a.ip)]
  }

  /** One side of the full form; a wildcard side without ports is not printed. */
  function SideTokens(key: Keyword, a: AddrSpec): Args {
    if PrintsAny(a) && a.ports == [] then []
    else [Key(key)] + LocTokens(a) + if a.ports == [] then [] else [Key(PortKey), PortToken(a.ports, None)]
  }

  predicate ShortForm(r: Rule) {
    && PrintsAny(r.dst) && PrintsAny(r.src) && r.src.ports == [] && r.dst.ports != []
    && r.ifaceIn == [] && r.ifaceOut == []
  }

  function LogTokens(log: LogType): Args {
    match log
    case LogNone => []
    case LogNew => [Key(LogKey)]
    case LogAll => [Key(LogAllKey)]
  }

  function IfaceTokens(r: Rule): Args {
    (if r.ifaceIn != [] then [Key(InKey), Key(OnKey), Lex(NameText(r.ifaceIn))] else [])
    + (if r.ifaceOut != [] then [Key(OutKey), Key(OnKey), Lex(NameText(r.ifaceOut))]
       else if r.dir == Out then [Key(OutKey)] else [])
  }

  function CommentTokens(r: Rule): Args {
    if r.comment == "" then [] else [Key(CommentKey), Lex(r.comment)]
  }

  function ShortBody(r: Rule): Args {
    [PortToken(r.dst.ports, if r.proto == AnyProto then None else Some(ProtoWord(r.proto)))]
  }

  /** Sides in the order from, to; a fully generic rule gets "to any". */
  function SidesBody(r: Rule): Args {
    var sides := SideTokens(FromKey, r.src) + SideTokens(ToKey, r.dst);
    if sides == [] && r.ifaceIn == [] && r.ifaceOut == [] then [Key(ToKey), Key(AnyKey)] else sides
  }

  function ProtoTokens(r: Rule): Args {
    if r.proto == AnyProto then [] else [Key(ProtoKey), Plain(ProtoWord(r.proto))]
  }

  function TypeTokens(r: Rule): Args {
    match r.icmpType
    case None => []
    case Some(n) => [Key(TypeKey), Ports([One(n as int)], None)]
  }

  function FullBody(r: Rule): Args {
    SidesBody(r) + ProtoTokens(r) + TypeTokens(r)
  }

  function BodyTokens(r: Rule): Args {
    if ShortForm(r) then ShortBody(r) else FullBody(r)
  }

  function RouteTokens(r: Rule): Args {
    if r.Forward() then [Key(RouteKey)] else []
  }

  /** The canonical command of a rule without app profiles. */
  function CommandOf(r: Rule): Args {
    RouteTokens(r) + [Plain(ActionWord(r.action))] + IfaceTokens(r) + LogTokens(r.log) + BodyTokens(r) + CommentTokens(r)
  }

  method PrintPorts(ports: seq<PortRange>, proto: Option<string>) returns (t: Token)
    ensures t == PortToken(ports, proto)
  {
    var items: seq<Item> := [];
    for i := 0 to |ports|
      invariant items == seq(i, k requires 0 <= k < i => ItemOf(ports[k]))
    {
      if ports[i].lo == ports[i].hi {
        items := items + [One(ports[i].lo)];
      } else {
        items := items + [Between(ports[i].lo, ports[i].hi)];
      }
    }
    t := Ports(items, proto);
  }

  method PrintSide(key: Keyword, a: AddrSpec) returns (res: Args)
    ensures res == SideTokens(key, a)
  {
    res := [];
    if !PrintsAny(a) || a.ports != [] {
      res := res + [Key(key)] + LocTokens(a);
      if a.ports != [] {
        var t := PrintPorts(a.ports, None);
        res := res + [Key(PortKey), t];
      }
    }
  }

  method PrintSides(r: Rule) returns (res: Args)
    ensures res == SidesBody(r)
  {
    res := [];
    var sides := [(FromKey, r.src), (ToKey, r.dst)];
    for i := 0 to 2
      invariant i == 0 ==> res == []
      invariant i == 1 ==> res == SideTokens(FromKey, r.src)
      invariant i == 2 ==> res == SideTokens(FromKey, r.src) + SideTokens(ToKey, r.dst)
    {
      var s := PrintSide(sides[i].0, sides[i].1);
      res := res + s;
    }
    if res == [] && r.ifaceIn == [] && r.ifaceOut == [] {
      res := [Key(ToKey), Key(AnyKey)];
    }
  }

  method PrintIfaces(r: Rule) returns (res: Args)
    ensures res == IfaceTokens(r)
  {
    res := [];
    if r.ifaceIn != [] {
      res := res + [Key(InKey), Key(OnKey), Lex(NameText(r.ifaceIn))];
    }
    if r.ifaceOut != [] {
      res := res + [Key(OutKey), Key(OnKey), Lex(NameText(r.ifaceOut))];
    } else if r.dir == Out {
      res := res + [Key(OutKey)];
    }
  }

  method GetCommand(r: Rule) returns (res: Args)
    ensures res == CommandOf(r)
  {
    res := RouteTokens(r) + [Plain(ActionWord(r.action))];
    if ShortForm(r) {
      if r.dir == Out {
        res := res + [Key(OutKey)];
      }
      assert res == RouteTokens(r) + [Plain(ActionWord(r.action))] + IfaceTokens(r);
      var t := PrintPorts(r.dst.ports, if r.proto == AnyProto then None else Some(ProtoWord(r.proto)));
      res := res + LogTokens(r.log) + [t];
    } else {
      var ifaces := PrintIfaces(r);
      var sides := PrintSides(r);
      res := res + ifaces + LogTokens(r.log) + (sides + ProtoTokens(r) + TypeTokens(r));
    }
    res := res + CommentTokens(r);
  }
}
