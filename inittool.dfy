/**
 * The local IPv4 selection rule of package inittool (`GetLocalIP`), over an
 * interface list given as a value: two first-match searches, the first
 * preferring the 192.168.73.0/24 network, the second taking any usable address,
 * and the loopback address when both come up empty.
 */
module InitTool {
  import opened Wrappers
  import opened Bytes
  import opened Strconv

  /** An address an interface lists: an IP network or some other kind of address. */
  datatype Addr = IPNet(ip: seq<Byte>) | OtherAddr

  /** A network interface: its flags, and its address listing, `None` when listing fails. */
  datatype Interface = Interface(name: string, up: bool, loopback: bool, addrs: Option<seq<Addr>>)

  /** `IP.To4`: a 4-byte IP as is, the IPv4 inside an IPv4-mapped 16-byte IP, otherwise none. */
  function To4(ip: seq<Byte>): (r: Option<seq<Byte>>)
    ensures r.Some? ==> |r.value| == 4 && |ip| >= 4 && r.value == ip[|ip| - 4..]
    ensures r.Some? <==> |ip| == 4 || (|ip| == 16 && ip[..12] == V4MappedPrefix())
  {
    if |ip| == 4 then Some(ip)
    else if |ip| == 16 && ip[..12] == V4MappedPrefix() then Some(ip[12..])
    else None
  }

  /** Ten zero bytes and two 0xFF bytes: the prefix of an IPv4-mapped IPv6 address. */
  function V4MappedPrefix(): (p: seq<Byte>)
    ensures |p| == 12
  {
    seq(10, _ => 0) + [0xFF, 0xFF]
  }

  /** An IPv4 address usable as the server's address: not in 127.0.0.0/8 and not 0.0.0.0. */
  predicate Usable(ip4: seq<Byte>)
    requires |ip4| == 4
  {
    ip4[0] != 127 && ip4 != [0, 0, 0, 0]
  }

  /** In the preferred network 192.168.73.0/24. */
  predicate Preferred(ip4: seq<Byte>)
    requires |ip4| == 4
  {
    ip4[0] == 192 && ip4[1] == 168 && ip4[2] == 73
  }

  /** An interface whose addresses are looked at: up and not flagged loopback. */
  predicate Eligible(iface: Interface)
  {
    iface.up && !iface.loopback
  }

  /** Dotted-decimal text of an IPv4 address, as `IP.String` prints it. */
  function Dotted(ip4: seq<Byte>): (s: string)
    requires |ip4| == 4
    ensures |s| >= 7
  {
    Itoa(ip4[0] as nat) + "." + Itoa(ip4[1] as nat) + "." + Itoa(ip4[2] as nat) + "." + Itoa(ip4[3] as nat)
  }

  /** Text made of digits ends at its first '.', so a dotted join splits back into its parts. */
  lemma SplitAtDot(x: string, r: string, y: string, t: string)
    requires AllDigits(x) && AllDigits(y)
    requires x + ['.'] + r == y + ['.'] + t
    ensures x == y && r == t
  {
    var s := x + ['.'] + r;
    assert s[|x|] == '.' && !IsDigit('.');
    assert forall i :: 0 <= i < |y| ==> IsDigit(s[i]);
    assert |y| <= |x|;
    assert (y + ['.'] + t)[|y|] == '.';
    assert forall i :: 0 <= i < |x| ==> IsDigit(s[i]);
    assert |x| == |y|;
    assert x == s[..|x|] == y;
    assert r == s[|x| + 1..] == t;
  }

  lemma JoinRight(p: string, q: string, r: string, t: string)
    ensures p + "." + q + "." + r + "." + t == p + ['.'] + (q + ['.'] + (r + ['.'] + t))
  {
  }

  /** Distinct IPv4 addresses print as distinct dotted-decimal texts. */
  lemma DottedInjective(a: seq<Byte>, b: seq<Byte>)
    requires |a| == 4 && |b| == 4
    requires Dotted(a) == Dotted(b)
    ensures a == b
  {
    var sa := [Itoa(a[0] as nat), Itoa(a[1] as nat), Itoa(a[2] as nat), Itoa(a[3] as nat)];
    var sb := [Itoa(b[0] as nat), Itoa(b[1] as nat), Itoa(b[2] as nat), Itoa(b[3] as nat)];
    JoinRight(sa[0], sa[1], sa[2], sa[3]);
    JoinRight(sb[0], sb[1], sb[2], sb[3]);
    SplitAtDot(sa[0], sa[1] + ['.'] + (sa[2] + ['.'] + sa[3]), sb[0], sb[1] + ['.'] + (sb[2] + ['.'] + sb[3]));
    SplitAtDot(sa[1], sa[2] + ['.'] + sa[3], sb[1], sb[2] + ['.'] + sb[3]);
    SplitAtDot(sa[2], sa[3], sb[2], sb[3]);
    ItoaInjective(a[0] as nat, b[0] as nat);
    ItoaInjective(a[1] as nat, b[1] as nat);
    ItoaInjective(a[2] as nat, b[2] as nat);
    ItoaInjective(a[3] as nat, b[3] as nat);
    assert a == [a[0], a[1], a[2], a[3]] && b == [b[0], b[1], b[2], b[3]];
  }

  /** The condition a search looks for; `preferredOnly` is the first search's extra test. */
  predicate Wanted(ip4: seq<Byte>, preferredOnly: bool)
    requires |ip4| == 4
  {
    Usable(ip4) && (preferredOnly ==> Preferred(ip4))
  }

  /** The inner loop: the first wanted IPv4 address among one interface's addresses. */
  function FindInAddrs(addrs: seq<Addr>, preferredOnly: bool): (r: Option<seq<Byte>>)
    ensures r.Some? ==> |r.value| == 4 && Wanted(r.value, preferredOnly)
  {
    if addrs == [] then None
    else
      var found :=
        if addrs[0].IPNet? then
          match To4(addrs[0].ip)
          case Some(ip4) => if Wanted(ip4, preferredOnly) then Some(ip4) else None
          case None => None
        else None;
      if found.Some? then found else FindInAddrs(addrs[1..], preferredOnly)
  }

  /** The outer loop: skips ineligible interfaces and interfaces whose listing fails. */
  function FindInInterfaces(ifaces: seq<Interface>, preferredOnly: bool): (r: Option<seq<Byte>>)
    ensures r.Some? ==> |r.value| == 4 && Wanted(r.value, preferredOnly)
  {
    if ifaces == [] then None
    else
      var found :=
        if Eligible(ifaces[0]) && ifaces[0].addrs.Some? then FindInAddrs(ifaces[0].addrs.value, preferredOnly)
        else None;
      if found.Some? then found else FindInInterfaces(ifaces[1..], preferredOnly)
  }

  /** `GetLocalIP`: a preferred address, else any usable one, else "127.0.0.1". */
  function GetLocalIP(ifaces: seq<Interface>): (s: string)
  {
    match FindInInterfaces(ifaces, true)
    case Some(ip4) => Dotted(ip4)
    case None =>
      match FindInInterfaces(ifaces, false)
      case Some(ip4) => Dotted(ip4)
      case None => "127.0.0.1"
  }

  // A reference definition: every IPv4 address the searches can see, in
  // interface-then-address order, and the first wanted one among them.

  /** Every candidate is a 4-byte address. */
  predicate AllFour(c: seq<seq<Byte>>)
  {
    forall i :: 0 <= i < |c| ==> |c[i]| == 4
  }

  /** The IPv4 addresses of one address listing, in order. */
  function AddrCandidates(addrs: seq<Addr>): (c: seq<seq<Byte>>)
    ensures AllFour(c)
  {
    if addrs == [] then []
    else
      var head := if addrs[0].IPNet? then To4(addrs[0].ip) else None;
      (if head.Some? then [head.value] else []) + AddrCandidates(addrs[1..])
  }

  /** The IPv4 addresses one interface contributes: none unless it is eligible and its listing succeeds. */
  function OwnCandidates(iface: Interface): (c: seq<seq<Byte>>)
    ensures AllFour(c)
  {
    if Eligible(iface) && iface.addrs.Some? then AddrCandidates(iface.addrs.value) else []
  }

  /** The IPv4 addresses of every eligible interface whose listing succeeds, in order. */
  function Candidates(ifaces: seq<Interface>): (c: seq<seq<Byte>>)
    ensures AllFour(c)
  {
    if ifaces == [] then []
    else
      OwnCandidates(ifaces[0]) + Candidates(ifaces[1..])
  }

  /** The first element of `c` that is wanted, if any. */
  function FirstWanted(c: seq<seq<Byte>>, preferredOnly: bool): (r: Option<seq<Byte>>)
    requires AllFour(c)
    ensures r.Some? ==> |r.value| == 4
  {
    if c == [] then None
    else if Wanted(c[0], preferredOnly) then Some(c[0])
    else FirstWanted(c[1..], preferredOnly)
  }

  /** `FirstWanted` is the wanted element with no wanted element before it. */
  lemma {:induction false} FirstWantedIsFirst(c: seq<seq<Byte>>, preferredOnly: bool)
    requires AllFour(c)
    ensures FirstWanted(c, preferredOnly).None? <==> forall i :: 0 <= i < |c| ==> !Wanted(c[i], preferredOnly)
    ensures FirstWanted(c, preferredOnly).Some? ==>
      exists i :: 0 <= i < |c| && c[i] == FirstWanted(c, preferredOnly).value && Wanted(c[i], preferredOnly)
        && forall j :: 0 <= j < i ==> !Wanted(c[j], preferredOnly)
  {
    if c != [] && !Wanted(c[0], preferredOnly) {
      FirstWantedIsFirst(c[1..], preferredOnly);
      var r := FirstWanted(c, preferredOnly);
      if r.Some? {
        var i :| 0 <= i < |c[1..]| && c[1..][i] == r.value && Wanted(c[1..][i], preferredOnly)
          && forall j :: 0 <= j < i ==> !Wanted(c[1..][j], preferredOnly);
        assert c[i + 1] == r.value;
        assert forall j :: 0 <= j < i + 1 ==> !Wanted(c[j], preferredOnly) by {
          forall j | 0 < j < i + 1 ensures !Wanted(c[j], preferredOnly) {
            assert c[j] == c[1..][j - 1];
          }
        }
      } else {
        forall i | 0 <= i < |c| ensures !Wanted(c[i], preferredOnly) {
          if i > 0 {
            assert c[i] == c[1..][i - 1];
          }
        }
      }
    } else if c != [] {
      assert Wanted(c[0], preferredOnly);
    }
  }

  lemma {:induction false} FirstWantedAppend(a: seq<seq<Byte>>, b: seq<seq<Byte>>, preferredOnly: bool)
    requires AllFour(a)
    requires AllFour(b)
    ensures AllFour(a + b)
    ensures FirstWanted(a + b, preferredOnly) ==
      if FirstWanted(a, preferredOnly).Some? then FirstWanted(a, preferredOnly) else FirstWanted(b, preferredOnly)
  {
    if a != [] {
      assert (a + b)[0] == a[0];
      assert (a + b)[1..] == a[1..] + b;
      FirstWantedAppend(a[1..], b, preferredOnly);
    } else {
      assert a + b == b;
    }
  }

  /** The inner loop finds the first wanted address of the listing. */
  lemma {:induction false} FindInAddrsIsFirst(addrs: seq<Addr>, preferredOnly: bool)
    ensures FindInAddrs(addrs, preferredOnly) == FirstWanted(AddrCandidates(addrs), preferredOnly)
  {
    if addrs != [] {
      var head := if addrs[0].IPNet? then To4(addrs[0].ip) else None;
      var first := if head.Some? then [head.value] else [];
      FindInAddrsIsFirst(addrs[1..], preferredOnly);
      FirstWantedAppend(first, AddrCandidates(addrs[1..]), preferredOnly);
    }
  }

  /** The nested search finds the first wanted address in interface-then-address order. */
  lemma {:induction false} FindInInterfacesIsFirst(ifaces: seq<Interface>, preferredOnly: bool)
    ensures FindInInterfaces(ifaces, preferredOnly) == FirstWanted(Candidates(ifaces), preferredOnly)
  {
    if ifaces != [] {
      var own := OwnCandidates(ifaces[0]);
      if Eligible(ifaces[0]) && ifaces[0].addrs.Some? {
        FindInAddrsIsFirst(ifaces[0].addrs.value, preferredOnly);
      }
      FindInInterfacesIsFirst(ifaces[1..], preferredOnly);
      FirstWantedAppend(own, Candidates(ifaces[1..]), preferredOnly);
    }
  }

  /**
   * The selection rule: the first preferred usable candidate when there is one;
   * otherwise the first usable candidate; otherwise the loopback address.
   * `FirstWantedIsFirst` says what "first" means.
   */
  lemma GetLocalIPChoice(ifaces: seq<Interface>)
    ensures var c := Candidates(ifaces);
      && (FirstWanted(c, true).Some? ==> GetLocalIP(ifaces) == Dotted(FirstWanted(c, true).value))
      && (FirstWanted(c, true).None? && FirstWanted(c, false).Some? ==>
            GetLocalIP(ifaces) == Dotted(FirstWanted(c, false).value))
      && (FirstWanted(c, false).None? ==> GetLocalIP(ifaces) == "127.0.0.1")
  {
    FindInInterfacesIsFirst(ifaces, true);
    FindInInterfacesIsFirst(ifaces, false);
    if FirstWanted(Candidates(ifaces), false).None? {
      FirstWantedIsFirst(Candidates(ifaces), true);
      FirstWantedIsFirst(Candidates(ifaces), false);
    }
  }

  lemma CandidatesCons(ifaces: seq<Interface>)
    requires |ifaces| > 0
    ensures Candidates(ifaces) == OwnCandidates(ifaces[0]) + Candidates(ifaces[1..])
  {
  }

  lemma ConcatAssoc(a: seq<seq<Byte>>, b: seq<seq<Byte>>, c: seq<seq<Byte>>)
    ensures a + (b + c) == (a + b) + c
  {
  }

  /** An interface that is down, flagged loopback or whose listing fails contributes no candidate. */
  lemma {:induction false} SkippedInterface(ifaces: seq<Interface>, k: int)
    requires 0 <= k < |ifaces| && !(Eligible(ifaces[k]) && ifaces[k].addrs.Some?)
    ensures Candidates(ifaces) == Candidates(ifaces[..k]) + Candidates(ifaces[k + 1..])
  {
    CandidatesCons(ifaces);
    if k == 0 {
      assert ifaces[..0] == [] && OwnCandidates(ifaces[0]) == [];
    } else {
      var tail, head := ifaces[1..], ifaces[..k];
      SkippedInterface(tail, k - 1);
      CandidatesCons(head);
      assert head[1..] == tail[..k - 1] && head[0] == ifaces[0];
      assert tail[k - 1 + 1..] == ifaces[k + 1..];
      ConcatAssoc(OwnCandidates(ifaces[0]), Candidates(tail[..k - 1]), Candidates(ifaces[k + 1..]));
    }
  }
}
