/** The canonical order of a port list, and that reordering keeps its meaning. */
module PortOrder {
  import opened Rules

  function ProtoRank(p: PortProto): nat {
    match p
    case Blank => 0
    case AnyPort => 1
    case TcpPort => 2
    case UdpPort => 3
  }

  /** By low port, then by protocol text. */
  predicate Less(a: PortRange, b: PortRange) {
    a.lo < b.lo || (a.lo == b.lo && ProtoRank(a.proto) < ProtoRank(b.proto))
  }

  function InsertPort(r: PortRange, ports: seq<PortRange>): seq<PortRange> {
    if ports == [] || Less(r, ports[0]) then [r] + ports else [ports[0]] + InsertPort(r, ports[1..])
  }

  /** The stable sort that Normalize applies. */
  function SortPorts(ports: seq<PortRange>): seq<PortRange> {
    if ports == [] then [] else InsertPort(ports[|ports| - 1], SortPorts(ports[..|ports| - 1]))
  }

  predicate Ordered(ports: seq<PortRange>) {
    forall i :: 0 < i < |ports| ==> !Less(ports[i], ports[i - 1])
  }

  ghost predicate SameMembers(a: seq<PortRange>, b: seq<PortRange>) {
    forall x :: x in a <==> x in b
  }

  lemma {:induction false} InsertMembers(r: PortRange, ports: seq<PortRange>)
    ensures SameMembers(InsertPort(r, ports), [r] + ports)
    ensures |InsertPort(r, ports)| == |ports| + 1
  {
    if ports != [] && !Less(r, ports[0]) {
      InsertMembers(r, ports[1..]);
      assert ports == [ports[0]] + ports[1..];
    }
  }

  lemma {:induction false} SortMembers(ports: seq<PortRange>)
    ensures SameMembers(SortPorts(ports), ports) && |SortPorts(ports)| == |ports|
  {
    if ports != [] {
      var n := |ports| - 1;
      SortMembers(ports[..n]);
      InsertMembers(ports[n], SortPorts(ports[..n]));
      assert ports == ports[..n] + [ports[n]];
    }
  }

  lemma {:induction false} InsertLast(r: PortRange, ports: seq<PortRange>)
    requires Ordered(ports + [r])
    ensures InsertPort(r, ports) == ports + [r]
  {
    if ports != [] {
      NotBelow(ports + [r], |ports|);
      assert (ports + [r])[0] == ports[0];
      assert (ports + [r])[1..] == ports[1..] + [r];
      assert Ordered(ports[1..] + [r]) by {
        assert forall i :: 0 < i < |ports[1..] + [r]| ==>
          (ports[1..] + [r])[i] == (ports + [r])[i + 1] && (ports[1..] + [r])[i - 1] == (ports + [r])[i];
      }
      InsertLast(r, ports[1..]);
    }
  }

  lemma {:induction false} NotBelow(ports: seq<PortRange>, k: nat)
    requires Ordered(ports) && k < |ports|
    ensures !Less(ports[k], ports[0])
  {
    if k > 0 {
      NotBelow(ports, k - 1);
      assert !Less(ports[k], ports[k - 1]);
    }
  }

  /** A list already in order is left as it is. */
  lemma {:induction false} SortOrdered(ports: seq<PortRange>)
    requires Ordered(ports)
    ensures SortPorts(ports) == ports
  {
    if ports != [] {
      var n := |ports| - 1;
      assert Ordered(ports[..n]);
      SortOrdered(ports[..n]);
      assert ports == ports[..n] + [ports[n]];
      InsertLast(ports[n], ports[..n]);
    }
  }

  lemma MembersSelect(a: seq<PortRange>, b: seq<PortRange>, tcp: bool, port: nat)
    requires SameMembers(a, b)
    ensures SomeSelects(a, tcp) ==> SomeSelects(b, tcp)
    ensures SomeAdmits(a, tcp, port) ==> SomeAdmits(b, tcp, port)
  {
    if SomeSelects(a, tcp) {
      var i :| 0 <= i < |a| && Selects(a[i], tcp);
      assert a[i] in b;
      var j :| 0 <= j < |b| && b[j] == a[i];
      assert Selects(b[j], tcp);
    }
    if SomeAdmits(a, tcp, port) {
      var i :| 0 <= i < |a| && Selects(a[i], tcp) && a[i].lo <= port <= a[i].hi;
      assert a[i] in b;
      var j :| 0 <= j < |b| && b[j] == a[i];
      assert Selects(b[j], tcp) && b[j].lo <= port <= b[j].hi;
    }
  }

  /** Sorting changes neither which protocols a list speaks about nor which ports it admits. */
  lemma SortAdmits(ports: seq<PortRange>, tcp: bool, port: nat)
    ensures SomeSelects(SortPorts(ports), tcp) <==> SomeSelects(ports, tcp)
    ensures PortsAdmit(SortPorts(ports), tcp, port) <==> PortsAdmit(ports, tcp, port)
  {
    SortMembers(ports);
    MembersSelect(SortPorts(ports), ports, tcp, port);
    MembersSelect(ports, SortPorts(ports), tcp, port);
  }

  lemma {:induction false} InsertOrders(r: PortRange, ports: seq<PortRange>)
    requires Ordered(ports)
    ensures Ordered(InsertPort(r, ports))
    ensures InsertPort(r, ports)[0] == r || (ports != [] && InsertPort(r, ports)[0] == ports[0])
  {
    if ports != [] {
      if Less(r, ports[0]) {
        ConsOrdered(r, ports);
      } else {
        assert Ordered(ports[1..]);
        InsertOrders(r, ports[1..]);
        ConsOrdered(ports[0], InsertPort(r, ports[1..]));
      }
    }
  }

  lemma ConsOrdered(x: PortRange, t: seq<PortRange>)
    requires Ordered(t) && (t != [] ==> !Less(t[0], x))
    ensures Ordered([x] + t)
  {
    var s := [x] + t;
    forall i | 0 < i < |s| ensures !Less(s[i], s[i - 1]) {
      if i > 1 {
        assert s[i] == t[i - 1] && s[i - 1] == t[i - 2];
      }
    }
  }

  /** The sorted list is in order. */
  lemma {:induction false} SortOrders(ports: seq<PortRange>)
    ensures Ordered(SortPorts(ports))
  {
    if ports != [] {
      var n := |ports| - 1;
      SortOrders(ports[..n]);
      InsertOrders(ports[n], SortPorts(ports[..n]));
    }
  }

  // ---- the order in outright terms -------------------------------------------------------------------

  /** The protocol texts in order: none, "any", "tcp", "udp". */
  predicate TextUpTo(a: PortProto, b: PortProto) {
    a == Blank || b == UdpPort || a == b || (a == AnyPort && b == TcpPort)
  }

  predicate UpTo(a: PortRange, b: PortRange) {
    a.lo < b.lo || (a.lo == b.lo && TextUpTo(a.proto, b.proto))
  }

  /** The ranges of one low port and protocol, in list order. */
  function Alike(ports: seq<PortRange>, lo: nat, proto: PortProto): seq<PortRange> {
    if ports == [] then []
    else (if ports[0].lo == lo && ports[0].proto == proto then [ports[0]] else []) + Alike(ports[1..], lo, proto)
  }

  lemma {:induction false} AlikeConcat(a: seq<PortRange>, b: seq<PortRange>, lo: nat, proto: PortProto)
    ensures Alike(a + b, lo, proto) == Alike(a, lo, proto) + Alike(b, lo, proto)
  {
    if a == [] {
      assert a + b == b;
    } else {
      assert (a + b)[1..] == a[1..] + b;
      AlikeConcat(a[1..], b, lo, proto);
    }
  }

  lemma {:induction false} NoneAlike(r: PortRange, ports: seq<PortRange>)
    requires Ordered(ports) && ports != [] && Less(r, ports[0])
    ensures Alike(ports, r.lo, r.proto) == []
  {
    if |ports| > 1 {
      assert !Less(ports[1], ports[0]);
      assert forall i :: 0 < i < |ports[1..]| ==> ports[1..][i] == ports[i + 1] && ports[1..][i - 1] == ports[i];
      NoneAlike(r, ports[1..]);
    }
  }

  /** An insertion goes behind the ranges it is like. */
  lemma {:induction false} InsertAlike(r: PortRange, ports: seq<PortRange>, lo: nat, proto: PortProto)
    requires Ordered(ports)
    ensures Alike(InsertPort(r, ports), lo, proto) == Alike(ports + [r], lo, proto)
  {
    AlikeConcat(ports, [r], lo, proto);
    if ports == [] || Less(r, ports[0]) {
      AlikeConcat([r], ports, lo, proto);
      if ports != [] {
        NoneAlike(r, ports);
      }
    } else {
      assert forall i :: 0 < i < |ports[1..]| ==> ports[1..][i] == ports[i + 1] && ports[1..][i - 1] == ports[i];
      InsertAlike(r, ports[1..], lo, proto);
      AlikeConcat(ports[1..], [r], lo, proto);
      AlikeConcat([ports[0]], InsertPort(r, ports[1..]), lo, proto);
      AlikeConcat([ports[0]], ports[1..], lo, proto);
      assert [ports[0]] + ports[1..] == ports;
    }
  }

  lemma {:induction false} SortAlike(ports: seq<PortRange>, lo: nat, proto: PortProto)
    ensures Alike(SortPorts(ports), lo, proto) == Alike(ports, lo, proto)
  {
    if ports != [] {
      var n := |ports| - 1;
      SortOrders(ports[..n]);
      SortAlike(ports[..n], lo, proto);
      InsertAlike(ports[n], SortPorts(ports[..n]), lo, proto);
      AlikeConcat(SortPorts(ports[..n]), [ports[n]], lo, proto);
      AlikeConcat(ports[..n], [ports[n]], lo, proto);
      assert ports[..n] + [ports[n]] == ports;
    }
  }

  /** A stable sort by low port, then by protocol text. */
  lemma SortSays(ports: seq<PortRange>, lo: nat, proto: PortProto)
    ensures var s := SortPorts(ports);
      && |s| == |ports| && (forall i :: 0 < i < |s| ==> UpTo(s[i - 1], s[i]))
      && Alike(s, lo, proto) == Alike(ports, lo, proto)
  {
    SortMembers(ports);
    SortOrders(ports);
    SortAlike(ports, lo, proto);
  }
}
