// Choosing the one network interface the Matter stack may see.
module LanNetif {
  import opened Wrappers
  import opened Model
  import opened OnOffMap

  // Four octets; eight 16-bit groups.
  datatype Ipv4 = Ipv4(a: Byte, b: Byte, c: Byte, d: Byte)

  datatype Ipv6 = Ipv6(g0: U16, g1: U16, g2: U16, g3: U16, g4: U16, g5: U16, g6: U16, g7: U16)

  // `mac` is the 8-byte Matter hardware address, of which six bytes carry the Ethernet MAC.
  datatype Iface = Iface(name: string, operational: bool, mac: seq<Byte>, ipv4s: seq<Ipv4>, ipv6s: seq<Ipv6>)

  // ---------- Names ----------

  const VIRTUAL_EXACT := ["lo", "cni0", "docker0"]

  const VIRTUAL_PREFIXES := [
    "docker", "veth", "br-", "hassio", "flannel", "cni", "cali", "weave", "virbr", "vboxnet", "zt",
    "tailscale", "wg", "tun", "tap", "dummy", "sit", "ip6tnl", "kube", "podman"]

  predicate IsLoopbackName(name: string) {
    name == "lo" || ("lo" <= name && |name| > 2 && forall i :: 2 <= i < |name| ==> '0' <= name[i] <= '9')
  }

  predicate IsVirtualName(name: string) {
    || IsLoopbackName(name)
    || name in VIRTUAL_EXACT
    || exists i :: 0 <= i < |VIRTUAL_PREFIXES| && VIRTUAL_PREFIXES[i] <= name
  }

  // ---------- Addresses ----------

  predicate HasRealMac(mac: seq<Byte>) {
    exists i :: 0 <= i < |mac| && i < 6 && mac[i] != 0
  }

  predicate UsableIpv4(x: Ipv4) {
    && x != Ipv4(0, 0, 0, 0)
    && x.a != 127
    && !(x.a == 169 && x.b == 254)
    && !(224 <= x.a <= 239)
    && x != Ipv4(255, 255, 255, 255)
  }

  // Unicast: not unspecified, not loopback, not multicast; link-local is enough for Matter.
  predicate MatterIpv6(x: Ipv6) {
    x != Ipv6(0, 0, 0, 0, 0, 0, 0, 0) && x != Ipv6(0, 0, 0, 0, 0, 0, 0, 1) && x.g0 / 0x100 != 0xFF
  }

  predicate IsLinkLocal(x: Ipv6) {
    x.g0 / 0x40 == 0xFE80 / 0x40
  }

  predicate HasMatterIpv6(f: Iface) {
    exists i :: 0 <= i < |f.ipv6s| && MatterIpv6(f.ipv6s[i])
  }

  predicate HasRoutableIpv6(f: Iface) {
    exists i :: 0 <= i < |f.ipv6s| && MatterIpv6(f.ipv6s[i]) && !IsLinkLocal(f.ipv6s[i])
  }

  predicate HasUsableIpv4(f: Iface) {
    exists i :: 0 <= i < |f.ipv4s| && UsableIpv4(f.ipv4s[i])
  }

  // ---------- The ranges behind the names and addresses ----------

  function Number4(x: Ipv4): int {
    ((x.a * 0x100 + x.b) * 0x100 + x.c) * 0x100 + x.d
  }

  const GROUP := 0x1_0000

  // The address as a 128-bit number, split into its first group and the rest.
  function Rest6(x: Ipv6): int {
    (((((x.g1 * GROUP + x.g2) * GROUP + x.g3) * GROUP + x.g4) * GROUP + x.g5) * GROUP + x.g6) * GROUP + x.g7
  }

  const TWO_112 := 0x1_0000_0000_0000_0000_0000_0000_0000

  function Number6(x: Ipv6): int {
    x.g0 * TWO_112 + Rest6(x)
  }

  // All addresses but 0.0.0.0, 127.0.0.0/8, 169.254.0.0/16, 224.0.0.0/4 and the broadcast one.
  lemma UsableIpv4Iff(x: Ipv4)
    ensures var n := Number4(x);
      UsableIpv4(x) <==>
        && 0 < n < 0xFFFF_FFFF
        && !(0x7F00_0000 <= n <= 0x7FFF_FFFF)
        && !(0xA9FE_0000 <= n <= 0xA9FE_FFFF)
        && !(0xE000_0000 <= n <= 0xEFFF_FFFF)
  {
  }

  // Matter takes every address between ::1 and ff00:: exclusive; fe80::/10 is link-local.
  lemma MatterIpv6Iff(x: Ipv6)
    ensures MatterIpv6(x) <==> 1 < Number6(x) < 0xFF00 * TWO_112
    ensures IsLinkLocal(x) <==> 0xFE80 * TWO_112 <= Number6(x) < 0xFEC0 * TWO_112
  {
    RestBounds(x);
  }

  lemma RestBounds(x: Ipv6)
    ensures 0 <= Rest6(x) < TWO_112
    ensures Rest6(x) == 0 <==> x.(g0 := 0) == Ipv6(0, 0, 0, 0, 0, 0, 0, 0)
    ensures Rest6(x) == 1 <==> x.(g0 := 0) == Ipv6(0, 0, 0, 0, 0, 0, 0, 1)
  {
  }

  // Only the six bytes of the Ethernet MAC count.
  lemma RealMacIff(mac: seq<Byte>)
    requires |mac| == 8
    ensures HasRealMac(mac) <==> mac[..6] != [0, 0, 0, 0, 0, 0]
  {
    if mac[..6] != [0, 0, 0, 0, 0, 0] {
      var i :| 0 <= i < 6 && mac[..6][i] != 0;
      assert mac[i] != 0;
    }
  }

  // Every name of a container, tunnel or loopback family is virtual, whatever follows.
  lemma FamiliesAreVirtual(rest: string)
    ensures IsVirtualName("docker" + rest) && IsVirtualName("veth" + rest) && IsVirtualName("br-" + rest)
    ensures IsVirtualName("hassio" + rest) && IsVirtualName("flannel" + rest) && IsVirtualName("cni" + rest)
    ensures IsVirtualName("cali" + rest) && IsVirtualName("weave" + rest) && IsVirtualName("virbr" + rest)
    ensures IsVirtualName("vboxnet" + rest) && IsVirtualName("zt" + rest) && IsVirtualName("tailscale" + rest)
    ensures IsVirtualName("wg" + rest) && IsVirtualName("tun" + rest) && IsVirtualName("tap" + rest)
    ensures IsVirtualName("dummy" + rest) && IsVirtualName("sit" + rest) && IsVirtualName("ip6tnl" + rest)
    ensures IsVirtualName("kube" + rest) && IsVirtualName("podman" + rest)
    ensures IsLoopbackName("lo" + rest) <==> forall i :: 0 <= i < |rest| ==> rest[i] in "0123456789"
  {
    hide IsLoopbackName;
    forall i | 0 <= i < |VIRTUAL_PREFIXES|
      ensures IsVirtualName(VIRTUAL_PREFIXES[i] + rest)
    {
      assert VIRTUAL_PREFIXES[i] <= VIRTUAL_PREFIXES[i] + rest;
    }
    LoopbackIff(rest);
    PrefixTable();
  }

  lemma PrefixTable()
    ensures |VIRTUAL_PREFIXES| == 20
    ensures VIRTUAL_PREFIXES[0] == "docker" && VIRTUAL_PREFIXES[1] == "veth" && VIRTUAL_PREFIXES[2] == "br-"
    ensures VIRTUAL_PREFIXES[3] == "hassio" && VIRTUAL_PREFIXES[4] == "flannel" && VIRTUAL_PREFIXES[5] == "cni"
    ensures VIRTUAL_PREFIXES[6] == "cali" && VIRTUAL_PREFIXES[7] == "weave" && VIRTUAL_PREFIXES[8] == "virbr"
    ensures VIRTUAL_PREFIXES[9] == "vboxnet" && VIRTUAL_PREFIXES[10] == "zt" && VIRTUAL_PREFIXES[11] == "tailscale"
    ensures VIRTUAL_PREFIXES[12] == "wg" && VIRTUAL_PREFIXES[13] == "tun" && VIRTUAL_PREFIXES[14] == "tap"
    ensures VIRTUAL_PREFIXES[15] == "dummy" && VIRTUAL_PREFIXES[16] == "sit" && VIRTUAL_PREFIXES[17] == "ip6tnl"
    ensures VIRTUAL_PREFIXES[18] == "kube" && VIRTUAL_PREFIXES[19] == "podman"
  {
  }

  lemma LoopbackIff(rest: string)
    ensures IsLoopbackName("lo" + rest) <==> forall i :: 0 <= i < |rest| ==> rest[i] in "0123456789"
  {
    var name := "lo" + rest;
    assert forall i :: 0 <= i < |rest| ==> name[i + 2] == rest[i];
    assert "lo" <= name;
    var digits := "0123456789";
    forall c: char
      ensures '0' <= c <= '9' <==> c in digits
    {
      if '0' <= c <= '9' {
        assert c == digits[c as int - '0' as int];
      }
    }
  }

  // Ordinary wired, wireless and bridge faces are not.
  lemma LanNamesAreReal(rest: string)
    ensures !IsVirtualName("eth" + rest) && !IsVirtualName("en" + rest) && !IsVirtualName("wlan" + rest)
    ensures !IsVirtualName("br0") && !IsVirtualName("lan" + rest)
  {
    var eth, en, wlan, lan := "eth" + rest, "en" + rest, "wlan" + rest, "lan" + rest;
    assert eth[..2] == "et" && en[..2] == "en" && wlan[..2] == "wl" && lan[..2] == "la" && "br0"[..2] == "br";
    assert eth[0] == 'e' && en[0] == 'e' && lan[0] == 'l';
    StartsUnlike(eth);
    StartsUnlike(en);
    StartsUnlike(wlan);
    StartsUnlike("br0");
    StartsUnlike(lan);
  }

  // No listed family starts with e, l, wl or br0.
  lemma StartsUnlike(name: string)
    requires |name| >= 2 && name[..2] != "lo"
    requires name[0] in "el" || "wl" <= name || "br0" <= name
    ensures !IsVirtualName(name)
  {
    PrefixTable();
    forall i | 0 <= i < |VIRTUAL_PREFIXES|
      ensures !(VIRTUAL_PREFIXES[i] <= name)
    {
      var p := VIRTUAL_PREFIXES[i];
      assert p[0] !in "el" && !(p[0] == 'w' && p[1] == 'l') && !(p[0] == 'b' && p[2] == '0');
    }
  }

  // ---------- Scoring ----------

  function Score(f: Iface): int {
    (if f.operational then 1000 else 0)
    + (if HasRealMac(f.mac) then 100 else 0)
    + (if HasUsableIpv4(f) then 50 else 0)
    + (if HasMatterIpv6(f) then 200 else 0)
    + (if HasRoutableIpv6(f) then 20 else 0)
  }

  // The axes in order of importance.
  function Axes(f: Iface): seq<bool> {
    [f.operational, HasMatterIpv6(f), HasRealMac(f.mac), HasUsableIpv4(f), HasRoutableIpv6(f)]
  }

  // a lacks what b has at the first axis where they differ.
  predicate LexLess(a: seq<bool>, b: seq<bool>)
    requires |a| == |b|
  {
    a != [] && ((!a[0] && b[0]) || (a[0] == b[0] && LexLess(a[1..], b[1..])))
  }

  function Points(axes: seq<bool>, weights: seq<nat>): nat
    requires |axes| == |weights|
  {
    if axes == [] then 0 else (if axes[0] then weights[0] else 0) + Points(axes[1..], weights[1..])
  }

  function Total(weights: seq<nat>): nat {
    if weights == [] then 0 else weights[0] + Total(weights[1..])
  }

  // Each weight outweighs everything after it.
  predicate Dominant(weights: seq<nat>) {
    weights == [] || (weights[0] > Total(weights[1..]) && Dominant(weights[1..]))
  }

  lemma {:induction false} PointsBounded(axes: seq<bool>, weights: seq<nat>)
    requires |axes| == |weights|
    ensures Points(axes, weights) <= Total(weights)
  {
    if axes != [] {
      PointsBounded(axes[1..], weights[1..]);
    }
  }

  // With dominant weights, comparing sums is comparing axes lexicographically.
  lemma {:induction false} DominantWeightsAreLexicographic(a: seq<bool>, b: seq<bool>, weights: seq<nat>)
    requires |a| == |b| == |weights| && Dominant(weights)
    ensures Points(a, weights) < Points(b, weights) <==> LexLess(a, b)
  {
    if a != [] {
      PointsBounded(a[1..], weights[1..]);
      PointsBounded(b[1..], weights[1..]);
      DominantWeightsAreLexicographic(a[1..], b[1..], weights[1..]);
    }
  }

  const WEIGHTS: seq<nat> := [1000, 200, 100, 50, 20]

  lemma ScoreIsPoints(f: Iface)
    ensures Score(f) == Points(Axes(f), WEIGHTS)
  {
    hide HasMatterIpv6, HasRealMac, HasUsableIpv4, HasRoutableIpv6;
    var a, b, c, d, e := f.operational, HasMatterIpv6(f), HasRealMac(f.mac), HasUsableIpv4(f), HasRoutableIpv6(f);
    assert Points([e], [20]) == if e then 20 else 0;
    assert [d, e][1..] == [e] && [50, 20][1..] == [20];
    assert Points([d, e], [50, 20]) == (if d then 50 else 0) + Points([e], [20]);
    assert [c, d, e][1..] == [d, e] && [100, 50, 20][1..] == [50, 20];
    assert Points([c, d, e], [100, 50, 20]) == (if c then 100 else 0) + Points([d, e], [50, 20]);
    assert [b, c, d, e][1..] == [c, d, e] && [200, 100, 50, 20][1..] == [100, 50, 20];
    assert Points([b, c, d, e], [200, 100, 50, 20]) == (if b then 200 else 0) + Points([c, d, e], [100, 50, 20]);
    assert Axes(f)[1..] == [b, c, d, e] && WEIGHTS[1..] == [200, 100, 50, 20];
  }

  lemma WeightsDominant()
    ensures Dominant(WEIGHTS)
  {
    assert WEIGHTS[1..] == [200, 100, 50, 20] && WEIGHTS[1..][1..] == [100, 50, 20];
    assert WEIGHTS[1..][1..][1..] == [50, 20] && WEIGHTS[1..][1..][1..][1..] == [20];
  }

  // The score orders faces by operational, Matter IPv6, real MAC, usable IPv4, routable IPv6.
  lemma ScoreIsLexicographic(a: Iface, b: Iface)
    ensures Score(a) < Score(b) <==> LexLess(Axes(a), Axes(b))
    ensures Score(a) == Score(b) <==> Axes(a) == Axes(b)
  {
    hide Score, Axes, Dominant, Points;
    ScoreIsPoints(a);
    ScoreIsPoints(b);
    WeightsDominant();
    AxesSize(a);
    AxesSize(b);
    DominantWeightsAreLexicographic(Axes(a), Axes(b), WEIGHTS);
    DominantWeightsAreLexicographic(Axes(b), Axes(a), WEIGHTS);
    LexTrichotomy(Axes(a), Axes(b));
  }

  lemma AxesSize(f: Iface)
    ensures |Axes(f)| == |WEIGHTS|
  {
  }

  lemma {:induction false} LexTrichotomy(a: seq<bool>, b: seq<bool>)
    requires |a| == |b|
    ensures a == b <==> !LexLess(a, b) && !LexLess(b, a)
  {
    if a != [] {
      LexTrichotomy(a[1..], b[1..]);
      assert a == [a[0]] + a[1..] && b == [b[0]] + b[1..];
    }
  }

  // ---------- Selection ----------

  // May the auto-selection take this face, and may it only as a last resort?
  predicate Eligible(f: Iface) {
    !IsLoopbackName(f.name) && !IsVirtualName(f.name) && f.operational && HasMatterIpv6(f)
  }

  predicate Fallback(f: Iface) {
    !IsLoopbackName(f.name) && f.operational && HasMatterIpv6(f)
  }

  // i is the first index of maximal score among the faces satisfying ok.
  ghost predicate IsFirstBest(faces: seq<Iface>, ok: Iface -> bool, i: nat) {
    && i < |faces| && ok(faces[i])
    && (forall j :: 0 <= j < |faces| && ok(faces[j]) ==> Score(faces[j]) <= Score(faces[i]))
    && (forall j :: 0 <= j < i && ok(faces[j]) ==> Score(faces[j]) < Score(faces[i]))
  }

  ghost predicate NoneOk(faces: seq<Iface>, ok: Iface -> bool) {
    forall j :: 0 <= j < |faces| ==> !ok(faces[j])
  }

  // The selection among the faces satisfying ok: the first best, or none when none satisfies it.
  ghost predicate Best(faces: seq<Iface>, ok: Iface -> bool, r: Option<nat>) {
    if r.None? then NoneOk(faces, ok) else IsFirstBest(faces, ok, r.value)
  }

  lemma BestStep(faces: seq<Iface>, ok: Iface -> bool, i: nat, r: Option<nat>)
    requires i < |faces| && Best(faces[..i], ok, r)
    ensures r.Some? ==> r.value < i
    ensures Best(faces[..i + 1], ok,
      if ok(faces[i]) && (r.None? || Score(faces[r.value]) < Score(faces[i])) then Some(i) else r)
  {
    hide Score;
    assert faces[..i + 1] == faces[..i] + [faces[i]];
  }

  datatype StartError = PinNotFound | PinWithoutIpv6 | PinDown | NoIpv6Lan

  function FindName(faces: seq<Iface>, name: string): (r: Option<nat>)
    ensures r.Some? ==> r.value < |faces| && faces[r.value].name == name
    ensures r.Some? ==> forall j :: 0 <= j < r.value ==> faces[j].name != name
    ensures r.None? ==> forall j :: 0 <= j < |faces| ==> faces[j].name != name
  {
    if faces == [] then None
    else if faces[0].name == name then Some(0)
    else match FindName(faces[1..], name)
      case None => None
      case Some(i) => Some(i + 1)
  }

  function NormalizePin(pin: Option<string>): Option<string> {
    if pin.Some? && Trim(pin.value) != "" then Some(Trim(pin.value)) else None
  }

  lemma LoopbackIsVirtual()
    ensures forall name: string :: IsLoopbackName(name) ==> IsVirtualName(name)
  {
  }

  // What Pick's contract means without a pin: the pick can carry Matter traffic now, and there is
  // none only when no face could.
  lemma AutoPickMeans(faces: seq<Iface>, r: Option<nat>)
    requires if NoneOk(faces, Eligible) then Best(faces, Fallback, r) else Best(faces, Eligible, r)
    ensures r.Some? ==> r.value < |faces| && HasMatterIpv6(faces[r.value])
    ensures r.Some? ==> faces[r.value].operational && !IsLoopbackName(faces[r.value].name)
    ensures r.None? ==> forall i :: 0 <= i < |faces| ==>
      IsLoopbackName(faces[i].name) || !faces[i].operational || !HasMatterIpv6(faces[i])
  {
    hide Score, HasMatterIpv6, IsLoopbackName, IsVirtualName;
  }

  // A pin is used without the white space around it, and one of white space only is no pin.
  lemma PinIsTrimmed(given: string) returns (from: nat, to: nat)
    ensures Padded(given, from, to) && (from < to ==> !Blank(given[from]) && !Blank(given[to - 1]))
    ensures NormalizePin(Some(given)) == if from < to then Some(given[from..to]) else None
  {
    hide Trim, Blank;
    from, to := TrimTakesBlanks(given);
    assert from < to <==> given[from..to] != "";
  }

  class LanNetifs {
    const pin: Option<string>

    constructor (pin: Option<string>)
      ensures this.pin == NormalizePin(pin)
    {
      this.pin := NormalizePin(pin);
    }

    function ValidateForStart(faces: seq<Iface>): Result<(), StartError> {
      if pin.Some? then
        match FindName(faces, pin.value)
        case None => Failure(PinNotFound)
        case Some(i) =>
          if !HasMatterIpv6(faces[i]) then Failure(PinWithoutIpv6)
          else if !faces[i].operational then Failure(PinDown)
          else Success(())
      else if exists i :: 0 <= i < |faces| && Eligible(faces[i]) then Success(())
      else Failure(NoIpv6Lan)
    }

    // A pin is obeyed or nothing is picked; otherwise the first best real LAN face, or failing
    // that the first best face that is at least not loopback.
    method Pick(faces: seq<Iface>) returns (r: Option<nat>)
      ensures r.Some? ==> r.value < |faces|
      ensures pin.Some? ==> r == match FindName(faces, pin.value)
                                 case None => None
                                 case Some(i) => if HasMatterIpv6(faces[i]) then Some(i) else None
      ensures pin.None? ==> if NoneOk(faces, Eligible) then Best(faces, Fallback, r) else Best(faces, Eligible, r)
    {
      if pin.Some? {
        var at := FindName(faces, pin.value);
        if at.Some? && HasMatterIpv6(faces[at.value]) {
          return at;
        }
        return None;
      }
      hide Score, Eligible, Fallback, IsFirstBest;
      r := None;
      var i := 0;
      while i < |faces|
        invariant 0 <= i <= |faces|
        invariant Best(faces[..i], Eligible, r) && (r.Some? ==> r.value < i)
      {
        BestStep(faces, Eligible, i, r);
        if Eligible(faces[i]) && (r.None? || Score(faces[r.value]) < Score(faces[i])) {
          r := Some(i);
        }
        i := i + 1;
      }
      assert faces[..i] == faces;
      if r.Some? {
        return;
      }
      i := 0;
      while i < |faces|
        invariant 0 <= i <= |faces|
        invariant Best(faces[..i], Fallback, r) && (r.Some? ==> r.value < i)
      {
        BestStep(faces, Fallback, i, r);
        if Fallback(faces[i]) && (r.None? || Score(faces[r.value]) < Score(faces[i])) {
          r := Some(i);
        }
        i := i + 1;
      }
      assert faces[..i] == faces;
    }

    // The first face with the pinned name.
    predicate IsPin(faces: seq<Iface>, i: nat) {
      i < |faces| && pin == Some(faces[i].name) && forall j :: 0 <= j < i ==> pin != Some(faces[j].name)
    }

    // Start-up is refused exactly for these reasons, checked in this order.
    lemma StartRefusedIff(faces: seq<Iface>)
      ensures var r := ValidateForStart(faces);
        && (r == Failure(PinNotFound) <==> pin.Some? && forall i :: 0 <= i < |faces| ==> faces[i].name != pin.value)
        && (r == Failure(NoIpv6Lan) <==> pin.None? && forall i :: 0 <= i < |faces| ==>
              IsVirtualName(faces[i].name) || !faces[i].operational || !HasMatterIpv6(faces[i]))
        && (r == Failure(PinWithoutIpv6) <==>
              exists i: nat :: IsPin(faces, i) && !HasMatterIpv6(faces[i]))
        && (r == Failure(PinDown) <==>
              exists i: nat :: IsPin(faces, i) && HasMatterIpv6(faces[i]) && !faces[i].operational)
    {
      hide HasMatterIpv6, IsVirtualName;
      LoopbackIsVirtual();
      if pin.Some? {
        var at := FindName(faces, pin.value);
        assert at.Some? ==> IsPin(faces, at.value) && forall i: nat :: IsPin(faces, i) ==> i == at.value;
      }
    }

    // Start-up validation and selection on one inventory: when validation passes, the face
    // picked is operational, has a Matter IPv6 address, and is the pin or a real LAN face.
    method ValidateThenPick(faces: seq<Iface>) returns (r: Option<nat>)
      requires ValidateForStart(faces).Success?
      ensures r.Some? && r.value < |faces|
      ensures var f := faces[r.value];
        f.operational && HasMatterIpv6(f) && (if pin.Some? then f.name == pin.value else !IsVirtualName(f.name))
    {
      r := Pick(faces);
      if pin.None? {
        assert !NoneOk(faces, Eligible);
      }
    }
  }
}
