/**
 * The getIP handler: derive the client address, label special-use addresses,
 * and for a public address build the "<ip> - <org>[, <country>][ (<distance>)]" summary.
 */
module ClientLocator {
  import opened Wrappers
  import opened Text
  import opened WebTypes
  import Handlers

  // ---------------------------------------------------------------- client address

  /** The IPv4-mapped IPv6 marker removed from the remote address. */
  const MappedMarker := "::ffff:"

  predicate OccursAt(s: string, pat: string, i: nat)
  {
    i + |pat| <= |s| && s[i..i + |pat|] == pat
  }

  /** Every occurrence of `pat` removed, scanning left to right without overlap. */
  function RemoveAll(s: string, pat: string): (r: string)
    requires pat != []
    ensures |r| <= |s|
    decreases |s|
  {
    if |s| < |pat| then s
    else if s[..|pat|] == pat then RemoveAll(s[|pat|..], pat)
    else [s[0]] + RemoveAll(s[1..], pat)
  }

  /** A string in which the pattern never occurs is left unchanged. */
  lemma {:induction false} RemoveAllAbsent(s: string, pat: string)
    requires pat != []
    requires forall i :: 0 <= i <= |s| - |pat| ==> !OccursAt(s, pat, i)
    ensures RemoveAll(s, pat) == s
    decreases |s|
  {
    if |s| >= |pat| {
      assert !OccursAt(s, pat, 0);
      forall i | 0 <= i <= |s[1..]| - |pat| ensures !OccursAt(s[1..], pat, i) {
        assert !OccursAt(s, pat, i + 1);
        assert s[1..][i..i + |pat|] == s[i + 1..i + 1 + |pat|];
      }
      RemoveAllAbsent(s[1..], pat);
    }
  }

  /** An occurrence at the start is removed as a whole. */
  lemma RemoveAllLeading(pat: string, s: string)
    requires pat != []
    ensures RemoveAll(pat + s, pat) == RemoveAll(s, pat)
  {
    assert (pat + s)[..|pat|] == pat;
    assert (pat + s)[|pat|..] == s;
  }

  /** An occurrence in the tail of a string is an occurrence in the string, one position on. */
  lemma OccursInTail(u: string, pat: string, i: nat)
    requires u != [] && OccursAt(u[1..], pat, i)
    ensures OccursAt(u, pat, i + 1)
  {
    assert u[1..][i..i + |pat|] == u[i + 1..i + 1 + |pat|];
  }

  /** Text before the first occurrence of the pattern is kept as it is. */
  lemma {:induction false} RemoveAllKeepsPrefix(a: string, s: string, pat: string)
    requires pat != []
    requires forall i :: 0 <= i < |a| ==> !OccursAt(a + s, pat, i)
    ensures RemoveAll(a + s, pat) == a + RemoveAll(s, pat)
    decreases |a|
  {
    var u := a + s;
    if a == [] {
      assert u == s;
    } else if |u| < |pat| {
      assert RemoveAll(u, pat) == u && RemoveAll(s, pat) == s;
    } else {
      assert !OccursAt(u, pat, 0);
      assert u[..|pat|] != pat;
      assert RemoveAll(u, pat) == [u[0]] + RemoveAll(u[1..], pat);
      assert u[1..] == a[1..] + s;
      forall i | 0 <= i < |a[1..]| ensures !OccursAt(a[1..] + s, pat, i) {
        if OccursAt(u[1..], pat, i) { OccursInTail(u, pat, i); }
      }
      RemoveAllKeepsPrefix(a[1..], s, pat);
      assert [u[0]] + (a[1..] + RemoveAll(s, pat)) == a + RemoveAll(s, pat);
    }
  }

  /** An IPv4-mapped address with no port loses its marker: "::ffff:1.2.3.4" gives "1.2.3.4". */
  lemma RemoveMappedMarker(v4: string)
    requires forall i :: 0 <= i < |v4| ==> v4[i] != ':'
    ensures RemoveAll(MappedMarker + v4, MappedMarker) == v4
  {
    var s := MappedMarker + v4;
    assert s[..|MappedMarker|] == MappedMarker;
    assert s[|MappedMarker|..] == v4;
    assert RemoveAll(s, MappedMarker) == RemoveAll(v4, MappedMarker);
    forall i | 0 <= i <= |v4| - |MappedMarker| ensures !OccursAt(v4, MappedMarker, i) {
      assert v4[i..i + |MappedMarker|][0] == v4[i] != ':';
    }
    RemoveAllAbsent(v4, MappedMarker);
  }

  /**
   * The client address: the host part of the remote address when splitting host and port
   * succeeds (`split`, computed on the remote address as received), otherwise the remote
   * address with every IPv4-mapped marker removed.
   */
  function ClientIP(remoteAddr: string, split: Option<string>): (ip: string)
    ensures split.Some? ==> ip == split.value
    ensures split.None? ==> ip == RemoveAll(remoteAddr, MappedMarker)
  {
    match split
    case Some(host) => host
    case None => RemoveAll(remoteAddr, MappedMarker)
  }

  // ---------------------------------------------------------------- special-use addresses

  /** How one classification rule recognises an address. */
  datatype Matcher =
    | Exact(text: string)
    | Prefix(prefix: string)
    | Private172   // ^172\.(1[6-9]|2\d|3[01])\.
    | Cgnat100     // ^100\.([6-9][0-9]|1[0-2][0-7])\.

  datatype Rule = Rule(matcher: Matcher, description: string)

  const LocalhostV6 := "localhost IPv6 access"
  const LinkLocalV6 := "link-local IPv6 access"
  const LocalhostV4 := "localhost IPv4 access"
  const PrivateV4 := "private IPv4 access"
  const LinkLocalV4 := "link-local IPv4 access"
  const CgnatV4 := "CGNAT IPv4 access"

  /** The special-use rules, in the order they are tried. */
  const Rules: seq<Rule> := [
    Rule(Exact("::1"), LocalhostV6),
    Rule(Prefix("fe80:"), LinkLocalV6),
    Rule(Prefix("127."), LocalhostV4),
    Rule(Prefix("10."), PrivateV4),
    Rule(Private172, PrivateV4),
    Rule(Prefix("192.168"), PrivateV4),
    Rule(Prefix("169.254"), LinkLocalV4),
    Rule(Cgnat100, CgnatV4)]

  predicate Matches(m: Matcher, ip: string)
  {
    match m
    case Exact(t) => ip == t
    case Prefix(p) => HasPrefix(ip, p)
    case Private172 =>
      HasPrefix(ip, "172.") && |ip| >= 7 && ip[6] == '.' &&
      ((ip[4] == '1' && '6' <= ip[5] <= '9') ||
       (ip[4] == '2' && IsDigit(ip[5])) ||
       (ip[4] == '3' && (ip[5] == '0' || ip[5] == '1')))
    case Cgnat100 =>
      HasPrefix(ip, "100.") &&
      ((|ip| >= 7 && '6' <= ip[4] <= '9' && IsDigit(ip[5]) && ip[6] == '.') ||
       (|ip| >= 8 && ip[4] == '1' && '0' <= ip[5] <= '2' && '0' <= ip[6] <= '7' && ip[7] == '.'))
  }

  /** The index of the first rule of `rules` that recognises `ip`, if any. */
  function FirstMatch(rules: seq<Rule>, ip: string): (k: Option<nat>)
    ensures k.Some? ==> k.value < |rules| && Matches(rules[k.value].matcher, ip)
    ensures k.Some? ==> forall j :: 0 <= j < k.value ==> !Matches(rules[j].matcher, ip)
    ensures k.None? ==> forall j :: 0 <= j < |rules| ==> !Matches(rules[j].matcher, ip)
  {
    if rules == [] then None
    else if Matches(rules[0].matcher, ip) then Some(0)
    else
      match FirstMatch(rules[1..], ip)
      case None => None
      case Some(j) => Some(j + 1)
  }

  /** The special-use label of an address, or None for a public address. */
  function Classify(ip: string): (tag: Option<string>)
    ensures tag.None? <==> forall j :: 0 <= j < |Rules| ==> !Matches(Rules[j].matcher, ip)
    ensures tag.Some? ==>
      exists k :: 0 <= k < |Rules| && Matches(Rules[k].matcher, ip) && tag.value == Rules[k].description
        && forall j :: 0 <= j < k ==> !Matches(Rules[j].matcher, ip)
  {
    match FirstMatch(Rules, ip)
    case None => None
    case Some(k) => Some(Rules[k].description)
  }

  /** The 172 rule accepts exactly the second octets 16 to 31. */
  lemma Private172SecondOctet(n: nat, rest: string)
    requires n <= 255
    ensures Matches(Private172, "172." + NatToString(n) + "." + rest) <==> 16 <= n <= 31
  {
    var ip := "172." + NatToString(n) + "." + rest;
    if n < 10 {
      assert ip[5] == '.';
    } else if n < 100 {
      NatToStringTwoDigits(n);
      assert ip[4] == DigitChar(n / 10) && ip[5] == DigitChar(n % 10) && ip[6] == '.';
    } else {
      NatToStringThreeDigits(n);
      assert ip[6] == DigitChar(n % 10);
    }
  }

  /**
   * The CGNAT rule as written accepts the second octets 60-99, 100-107, 110-117 and
   * 120-127, not the 64-127 of the 100.64.0.0/10 block.
   */
  lemma Cgnat100SecondOctet(n: nat, rest: string)
    requires n <= 255
    ensures Matches(Cgnat100, "100." + NatToString(n) + "." + rest) <==>
      (60 <= n <= 99 || 100 <= n <= 107 || 110 <= n <= 117 || 120 <= n <= 127)
  {
    var ip := "100." + NatToString(n) + "." + rest;
    if n < 10 {
      assert ip[5] == '.';
    } else if n < 100 {
      NatToStringTwoDigits(n);
      assert ip[4] == DigitChar(n / 10) && ip[5] == DigitChar(n % 10) && ip[6] == '.';
    } else {
      NatToStringThreeDigits(n);
      assert ip[4] == DigitChar(n / 100) && ip[5] == DigitChar(n / 10 % 10);
      assert ip[6] == DigitChar(n % 10) && ip[7] == '.';
    }
  }

  /** Inside 100.64.0.0/10 by the numeric second octet. */
  predicate InCgnatBlock(secondOctet: nat)
  {
    64 <= secondOctet <= 127
  }

  /** Witnesses of the gap: 100.60.x.x is labelled although public, 100.108.x.x is not although CGNAT. */
  lemma CgnatRuleMislabels(rest: string)
    ensures Matches(Cgnat100, "100.60." + rest) && !InCgnatBlock(60)
    ensures !Matches(Cgnat100, "100.108." + rest) && InCgnatBlock(108)
  {
    Cgnat100SecondOctet(60, rest);
    Cgnat100SecondOctet(108, rest);
    NatToStringTwoDigits(60);
    NatToStringThreeDigits(108);
    assert "100." + NatToString(60) + "." + rest == "100.60." + rest;
    assert "100." + NatToString(108) + "." + rest == "100.108." + rest;
  }

  // ---------------------------------------------------------------- organisation cleanup

  /** The characters of the RE2 class \s: tab, newline, form feed, carriage return, space. */
  predicate IsSpace(c: char)
  {
    c == '\t' || c == '\n' || c == '\U{000C}' || c == '\r' || c == ' '
  }

  /** The length of the longest run of digits at the start of `s`. */
  function DigitRun(s: string): (k: nat)
    ensures k <= |s|
    ensures forall i :: 0 <= i < k ==> IsDigit(s[i])
    ensures k < |s| ==> !IsDigit(s[k])
  {
    if s != [] && IsDigit(s[0]) then 1 + DigitRun(s[1..]) else 0
  }

  /** `t` is one match of AS\d+\s: "AS", one or more digits, one whitespace character. */
  predicate IsToken(t: string)
  {
    |t| >= 4 && t[0] == 'A' && t[1] == 'S' && AllDigits(t[2..|t| - 1]) && IsSpace(t[|t| - 1])
  }

  /** A prefix of `s` is a token exactly when it is "AS", the whole leading digit run, and a whitespace. */
  lemma TokenShape(s: string)
    ensures forall n :: 0 <= n <= |s| ==>
      (IsToken(s[..n]) <==>
        |s| >= 2 && s[0] == 'A' && s[1] == 'S' && n >= 4 && DigitRun(s[2..]) == n - 3 && IsSpace(s[n - 1]))
  {
    forall n | 0 <= n <= |s|
      ensures IsToken(s[..n]) <==>
        |s| >= 2 && s[0] == 'A' && s[1] == 'S' && n >= 4 && DigitRun(s[2..]) == n - 3 && IsSpace(s[n - 1])
    {
      if n >= 4 {
        var t := s[2..];
        var k := DigitRun(t);
        assert s[..n][0] == s[0] && s[..n][1] == s[1] && s[..n][n - 1] == s[n - 1] == t[n - 3];
        assert forall i :: 0 <= i < n - 3 ==> s[..n][2..n - 1][i] == t[i];
        if IsToken(s[..n]) {
          assert !IsDigit(t[n - 3]);
        }
        if s[0] == 'A' && s[1] == 'S' && k == n - 3 && IsSpace(s[n - 1]) {
          var u := s[..n][2..n - 1];
          forall i | 0 <= i < |u| ensures IsDigit(u[i]) {
            assert u[i] == t[i];
          }
        }
      }
    }
  }

  /** The length of the match of AS\d+\s at the start of `s`, if there is one; it is the only one. */
  function TokenAt(s: string): (len: Option<nat>)
    ensures len.Some? ==> len.value <= |s| && IsToken(s[..len.value])
    ensures len.Some? ==> forall n :: 0 <= n <= |s| && IsToken(s[..n]) ==> n == len.value
    ensures len.None? ==> forall n :: 0 <= n <= |s| ==> !IsToken(s[..n])
  {
    TokenShape(s);
    if |s| >= 2 && s[0] == 'A' && s[1] == 'S' then
      var k := DigitRun(s[2..]);
      if k >= 1 && 2 + k < |s| && IsSpace(s[2 + k]) then Some(3 + k) else None
    else None
  }

  /** The organisation with every AS<digits><whitespace> token removed, left to right. */
  function StripAS(s: string): (r: string)
    ensures |r| <= |s|
    decreases |s|
  {
    if s == [] then []
    else
      match TokenAt(s)
      case Some(n) => StripAS(s[n..])
      case None => [s[0]] + StripAS(s[1..])
  }

  /** No "AS" in `s` means no token starts anywhere in it. */
  lemma NoPairNoToken(s: string)
    requires forall i :: 0 <= i < |s| - 1 ==> !(s[i] == 'A' && s[i + 1] == 'S')
    ensures forall i :: 0 <= i < |s| ==> TokenAt(s[i..]).None?
  {
    forall i | 0 <= i < |s| ensures TokenAt(s[i..]).None? {
      if i + 1 < |s| {
        assert s[i..][0] == s[i] && s[i..][1] == s[i + 1];
      }
    }
  }

  /** Text in which no token starts is kept as it is in front of whatever follows, which is cleaned on its own. */
  lemma {:induction false} StripASKeepsPrefix(a: string, t: string)
    requires forall i :: 0 <= i < |a| ==> TokenAt((a + t)[i..]).None?
    ensures StripAS(a + t) == a + StripAS(t)
    decreases |a|
  {
    var u := a + t;
    if a == [] {
      assert u == t;
    } else {
      assert u[0..] == u;
      assert TokenAt(u).None?;
      assert StripAS(u) == [u[0]] + StripAS(u[1..]);
      var a' := a[1..];
      assert u[1..] == a' + t;
      assert forall i :: 0 <= i < |a'| ==> (a' + t)[i..] == u[i + 1..];
      StripASKeepsPrefix(a', t);
    }
  }

  /** Text in which no token starts is left unchanged. */
  lemma StripASNoToken(s: string)
    requires forall i :: 0 <= i < |s| ==> TokenAt(s[i..]).None?
    ensures StripAS(s) == s
  {
    assert s + [] == s;
    StripASKeepsPrefix(s, []);
  }

  /** A leading AS-number token followed by whitespace is removed. */
  lemma StripASToken(digits: string, w: char, rest: string)
    requires digits != [] && AllDigits(digits) && IsSpace(w)
    ensures StripAS("AS" + digits + [w] + rest) == StripAS(rest)
  {
    var s := "AS" + digits + [w] + rest;
    assert s[2..] == digits + ([w] + rest);
    DigitRunOf(digits, [w] + rest);
    assert s[0] == 'A' && s[1] == 'S' && s[2 + |digits|] == w;
    assert TokenAt(s) == Some(3 + |digits|);
    assert s[3 + |digits|..] == rest;
  }

  lemma {:induction false} DigitRunOf(digits: string, tail: string)
    requires AllDigits(digits)
    requires tail != [] && !IsDigit(tail[0])
    ensures DigitRun(digits + tail) == |digits|
    decreases |digits|
  {
    if digits != [] {
      assert (digits + tail)[1..] == digits[1..] + tail;
      DigitRunOf(digits[1..], tail);
    } else {
      assert digits + tail == tail;
    }
  }

  /**
   * A token cannot straddle the end of `a` when the next character is 'A', since a token
   * holds an 'A' only at its start.
   */
  lemma TokensStayInside(a: string, t: string)
    requires t != [] && t[0] == 'A'
    requires forall i :: 0 <= i < |a| ==> TokenAt(a[i..]).None?
    ensures forall i :: 0 <= i < |a| ==> TokenAt((a + t)[i..]).None?
  {
    forall i | 0 <= i < |a| ensures TokenAt((a + t)[i..]).None? {
      var x := (a + t)[i..];
      var j := |a| - i;
      forall n | 0 <= n <= |x| ensures !IsToken(x[..n]) {
        if n <= j {
          assert x[..n] == a[i..][..n];
        } else {
          assert x[..n][j] == t[0] == 'A';
          if 2 <= j < n - 1 {
            assert x[..n][2..n - 1][j - 2] == 'A';
          }
        }
      }
    }
  }

  /**
   * An AS-number token is removed wherever it stands: "<a>AS<digits><whitespace><b>" gives
   * "<a><b>" when no other token starts in `a` or `b` ("AS1 ASUS" gives "ASUS", "Foo AS1 Bar" gives "Foo Bar").
   */
  lemma StripASInnerToken(a: string, digits: string, w: char, b: string)
    requires digits != [] && AllDigits(digits) && IsSpace(w)
    requires forall i :: 0 <= i < |a| ==> TokenAt(a[i..]).None?
    requires forall i :: 0 <= i < |b| ==> TokenAt(b[i..]).None?
    ensures StripAS(a + ("AS" + digits + [w] + b)) == a + b
  {
    var t := "AS" + digits + [w] + b;
    TokensStayInside(a, t);
    StripASKeepsPrefix(a, t);
    StripASToken(digits, w, b);
    StripASNoToken(b);
  }

  /** A bare AS number with nothing after it is kept: the pattern needs the whitespace. */
  lemma StripASBareToken(digits: string)
    requires digits != [] && AllDigits(digits)
    ensures StripAS("AS" + digits) == "AS" + digits
  {
    var s := "AS" + digits;
    assert s[2..] == digits;
    assert TokenAt(s).None?;
    var t := s[1..];
    forall i | 0 <= i < |t| - 1 ensures !(t[i] == 'A' && t[i + 1] == 'S') {
      assert t[i + 1] == digits[i];
    }
    NoPairNoToken(t);
    StripASNoToken(t);
  }

  // ---------------------------------------------------------------- public addresses

  const UnknownISP := "Unknown ISP"

  /** The cleaned organisation, or "Unknown ISP" when nothing is left. */
  function OrgLabel(organization: string): (r: string)
    ensures r != []
    ensures StripAS(organization) != [] ==> r == StripAS(organization)
    ensures StripAS(organization) == [] ==> r == UnknownISP
  {
    var isp := StripAS(organization);
    if isp == [] then UnknownISP else isp
  }

  /**
   * The ISP text: the organisation label, then ", <country>" when the country is not
   * empty, then " (<distance>)" when the location is not empty.
   */
  function IspString(info: IPInfoResponse, distanceUnit: string,
                     calculateDistance: (string, string) -> string): (r: string)
    ensures HasPrefix(r, OrgLabel(info.organization))
    ensures info.country != "" ==> HasPrefix(r, OrgLabel(info.organization) + ", " + info.country)
    ensures info.location != "" ==>
      HasSuffix(r, " (" + calculateDistance(info.location, distanceUnit) + ")")
    ensures info.location == "" && info.country != "" ==> HasSuffix(r, ", " + info.country)
    ensures info.location == "" && info.country == "" ==> r == OrgLabel(info.organization)
    ensures |r| == |OrgLabel(info.organization)|
      + (if info.country != "" then 2 + |info.country| else 0)
      + (if info.location != "" then 3 + |calculateDistance(info.location, distanceUnit)| else 0)
  {
    var isp := OrgLabel(info.organization);
    var withCountry := if info.country != "" then isp + ", " + info.country else isp;
    if info.location != "" then
      withCountry + " (" + calculateDistance(info.location, distanceUnit) + ")"
    else withCountry
  }

  /**
   * The getIP handler. `split` is the host part that splitting the remote address into
   * host and port yields (None when it fails), `isp` and `distance` the query parameters,
   * `lookup` the geolocation collaborator and `calculateDistance` the distance estimator.
   */
  function GetIP(remoteAddr: string, split: Option<string>, isp: Option<string>,
                 distance: Option<string>, lookup: string -> IPInfoResponse,
                 calculateDistance: (string, string) -> string): (r: Result)
    ensures var ip := ClientIP(remoteAddr, split);
      HasPrefix(r.processedString, ip)
      && (Classify(ip).Some? ==>
            r == Result(ip + " - " + Classify(ip).value, EmptyInfo))
      && (Classify(ip).None? && Handlers.FormValue(isp) != "true" ==>
            r == Result(ip, EmptyInfo))
      && (Classify(ip).None? && Handlers.FormValue(isp) == "true" ==>
            r.rawIspInfo == lookup(ip) &&
            r.processedString == ip + " - "
              + IspString(lookup(ip), Handlers.FormValue(distance), calculateDistance))
  {
    var ip := ClientIP(remoteAddr, split);
    match Classify(ip)
    case Some(tag) => Result(ip + " - " + tag, EmptyInfo)
    case None =>
      if Handlers.FormValue(isp) == "true" then
        var info := lookup(ip);
        Result(ip + " - " + IspString(info, Handlers.FormValue(distance), calculateDistance), info)
      else Result(ip, EmptyInfo)
  }

  /** A special-use address never reaches the collaborators: the reply ignores them and the flags. */
  lemma SpecialAddressIgnoresLookup(remoteAddr: string, split: Option<string>,
                                    isp1: Option<string>, isp2: Option<string>,
                                    distance1: Option<string>, distance2: Option<string>,
                                    lookup1: string -> IPInfoResponse, lookup2: string -> IPInfoResponse,
                                    estimate1: (string, string) -> string, estimate2: (string, string) -> string)
    requires Classify(ClientIP(remoteAddr, split)).Some?
    ensures GetIP(remoteAddr, split, isp1, distance1, lookup1, estimate1)
         == GetIP(remoteAddr, split, isp2, distance2, lookup2, estimate2)
    ensures GetIP(remoteAddr, split, isp1, distance1, lookup1, estimate1).rawIspInfo == EmptyInfo
  {
  }

  /** Without isp=true the collaborators are not consulted: the reply ignores them and the record is empty. */
  lemma NoLookupWithoutIspFlag(remoteAddr: string, split: Option<string>, isp: Option<string>,
                               distance1: Option<string>, distance2: Option<string>,
                               lookup1: string -> IPInfoResponse, lookup2: string -> IPInfoResponse,
                               estimate1: (string, string) -> string, estimate2: (string, string) -> string)
    requires Handlers.FormValue(isp) != "true"
    ensures GetIP(remoteAddr, split, isp, distance1, lookup1, estimate1)
         == GetIP(remoteAddr, split, isp, distance2, lookup2, estimate2)
    ensures GetIP(remoteAddr, split, isp, distance1, lookup1, estimate1).rawIspInfo == EmptyInfo
  {
  }

  /** An address that the k-th rule recognises, and no earlier rule, gets the k-th description. */
  lemma ClassifyByRule(ip: string, k: nat)
    requires k < |Rules| && Matches(Rules[k].matcher, ip)
    requires forall j :: 0 <= j < k ==> !Matches(Rules[j].matcher, ip)
    ensures Classify(ip) == Some(Rules[k].description)
  {
    var tag := Classify(ip);
    var k' :| 0 <= k' < |Rules| && Matches(Rules[k'].matcher, ip) &&
      tag.value == Rules[k'].description && forall j :: 0 <= j < k' ==> !Matches(Rules[j].matcher, ip);
    assert k' == k;
  }

  /** Every address starting "127." is reported as IPv4 loopback. */
  lemma ClassifyLoopbackV4(ip: string)
    requires HasPrefix(ip, "127.")
    ensures Classify(ip) == Some(LocalhostV4)
  {
    assert ip[0] == '1';
    assert !Matches(Rules[0].matcher, ip) by { assert ip != "::1"; }
    assert !Matches(Rules[1].matcher, ip) by { if |ip| >= 5 { assert ip[..5][0] == '1'; } }
    ClassifyByRule(ip, 2);
  }

  /** The first four rules miss an address starting with '1' whose second character is neither '2' nor '0'. */
  lemma EarlyRulesMiss(ip: string)
    requires |ip| >= 4 && ip[0] == '1' && ip[1] != '2' && ip[1] != '0'
    ensures forall j :: 0 <= j < 4 ==> !Matches(Rules[j].matcher, ip)
  {
    assert ip != "::1";
    assert ip[..4][0] == '1' && ip[..4][1] == ip[1];
    if |ip| >= 5 { assert ip[..5][0] == '1'; }
    assert ip[..3][1] == ip[1];
  }

  /** An address starting "10." is private. */
  lemma ClassifyTen(ip: string)
    requires HasPrefix(ip, "10.")
    ensures Classify(ip) == Some(PrivateV4)
  {
    assert ip[0] == '1' && ip[1] == '0';
    assert ip != "::1";
    if |ip| >= 5 { assert ip[..5][0] == '1'; }
    if |ip| >= 4 { assert ip[..4][1] == '0'; }
    ClassifyByRule(ip, 3);
  }

  /** "172.<n>." is private exactly for a second octet n from 16 to 31, and public otherwise. */
  lemma ClassifyPrivate172(n: nat, rest: string)
    requires n <= 255
    ensures Classify("172." + NatToString(n) + "." + rest) == if 16 <= n <= 31 then Some(PrivateV4) else None
  {
    var ip := "172." + NatToString(n) + "." + rest;
    Private172SecondOctet(n, rest);
    assert ip[..4] == "172.";
    EarlyRulesMiss(ip);
    if 16 <= n <= 31 {
      ClassifyByRule(ip, 4);
    } else {
      assert !HasPrefix(ip, "192.168") && !HasPrefix(ip, "169.254") by {
        if |ip| >= 7 { assert ip[..7][1] == '7'; }
      }
      assert !Matches(Cgnat100, ip) by { assert ip[..4][1] == '7'; }
      assert forall j :: 0 <= j < |Rules| ==> !Matches(Rules[j].matcher, ip);
    }
  }

  /** Any address starting "192.168" is private, with or without a dot after it. */
  lemma ClassifyPrivate192(ip: string)
    requires HasPrefix(ip, "192.168")
    ensures Classify(ip) == Some(PrivateV4)
  {
    assert ip[..7][1] == '9' && ip[..7][4] == '1';
    EarlyRulesMiss(ip);
    assert !Matches(Private172, ip) by { assert ip[..4][1] == '9'; }
    ClassifyByRule(ip, 5);
  }

  /** Any address starting "169.254" is IPv4 link-local, with or without a dot after it. */
  lemma ClassifyLinkLocalV4(ip: string)
    requires HasPrefix(ip, "169.254")
    ensures Classify(ip) == Some(LinkLocalV4)
  {
    assert ip[..7][1] == '6' && ip[..7][0] == '1';
    EarlyRulesMiss(ip);
    assert !Matches(Private172, ip) by { assert ip[..4][1] == '6'; }
    assert !HasPrefix(ip, "192.168") by { assert ip[..7][1] == '6'; }
    ClassifyByRule(ip, 6);
  }

  /** "100.<n>." is labelled CGNAT exactly for n in 60-99, 100-107, 110-117 or 120-127; otherwise public. */
  lemma ClassifyCgnat(n: nat, rest: string)
    requires n <= 255
    ensures Classify("100." + NatToString(n) + "." + rest) ==
      if 60 <= n <= 99 || 100 <= n <= 107 || 110 <= n <= 117 || 120 <= n <= 127
      then Some(CgnatV4) else None
  {
    var ip := "100." + NatToString(n) + "." + rest;
    Cgnat100SecondOctet(n, rest);
    assert ip[..4] == "100.";
    assert ip != "::1";
    assert !HasPrefix(ip, "fe80:") by { if |ip| >= 5 { assert ip[..5][0] == '1'; } }
    assert !HasPrefix(ip, "127.") by { assert ip[..4][1] == '0'; }
    assert !HasPrefix(ip, "10.") by { assert ip[..3][2] == '0'; }
    assert !Matches(Private172, ip) by { assert ip[..4][1] == '0'; }
    assert !HasPrefix(ip, "192.168") by { if |ip| >= 7 { assert ip[..7][1] == '0'; } }
    assert !HasPrefix(ip, "169.254") by { if |ip| >= 7 { assert ip[..7][1] == '0'; } }
    if 60 <= n <= 99 || 100 <= n <= 107 || 110 <= n <= 117 || 120 <= n <= 127 {
      ClassifyByRule(ip, 7);
    } else {
      assert forall j :: 0 <= j < |Rules| ==> !Matches(Rules[j].matcher, ip);
    }
  }

  /** An address that still carries the IPv4-mapped marker is never special, loopback included. */
  lemma MappedAddressIsPublic(v4: string)
    ensures Classify(MappedMarker + v4) == None
  {
    var ip := MappedMarker + v4;
    assert ip[0] == ':' && ip[1] == ':' && ip[2] == 'f';
    assert ip != "::1" by { assert |ip| >= 7; }
    forall j | 0 <= j < |Rules| ensures !Matches(Rules[j].matcher, ip) {
      var m := Rules[j].matcher;
      if m.Prefix? && |m.prefix| <= |ip| { assert ip[..|m.prefix|][0] == ':'; }
      if m == Private172 || m == Cgnat100 { if |ip| >= 4 { assert ip[..4][0] == ':'; } }
    }
  }

  /** The address "::1" is reported as IPv6 loopback. */
  lemma ClassifyLoopbackV6(ip: string)
    requires ip == "::1"
    ensures Classify(ip) == Some(LocalhostV6)
  {
    ClassifyByRule(ip, 0);
  }

  /** Every address starting "fe80:" is reported as IPv6 link-local. */
  lemma ClassifyLinkLocalV6(ip: string)
    requires HasPrefix(ip, "fe80:")
    ensures Classify(ip) == Some(LinkLocalV6)
  {
    assert ip[..5][0] == 'f';
    assert ip != "::1";
    ClassifyByRule(ip, 1);
  }

  /** A client whose host part starts "127." gets "<ip> - localhost IPv4 access" and an empty record. */
  lemma LoopbackV4Reply(remoteAddr: string, ip: string, isp: Option<string>, distance: Option<string>,
                        lookup: string -> IPInfoResponse, estimate: (string, string) -> string)
    requires HasPrefix(ip, "127.")
    ensures GetIP(remoteAddr, Some(ip), isp, distance, lookup, estimate)
         == Result(ip + " - " + LocalhostV4, EmptyInfo)
  {
    ClassifyLoopbackV4(ip);
  }

  /** An organisation that is only an AS token reads "Unknown ISP". */
  lemma OnlyTokenIsUnknown(digits: string, w: char)
    requires digits != [] && AllDigits(digits) && IsSpace(w)
    ensures OrgLabel("AS" + digits + [w]) == UnknownISP
  {
    StripASToken(digits, w, "");
    assert "AS" + digits + [w] + "" == "AS" + digits + [w];
  }

  /**
   * An organisation "AS<digits><whitespace><name>" in whose name no token starts is reported as
   * the name alone ("AS18881 TELEFONICA BRASIL S.A" gives "TELEFONICA BRASIL S.A").
   */
  lemma OrgLabelDropsASNumber(digits: string, w: char, name: string)
    requires digits != [] && AllDigits(digits) && IsSpace(w) && name != []
    requires forall i :: 0 <= i < |name| ==> TokenAt(name[i..]).None?
    ensures OrgLabel("AS" + digits + [w] + name) == name
  {
    StripASToken(digits, w, name);
    StripASNoToken(name);
  }

  /** A remote address without a port, such as "127.0.0.1", fails to split and is classified as it stands. */
  lemma LoopbackV4PortlessReply(remoteAddr: string, isp: Option<string>, distance: Option<string>,
                                lookup: string -> IPInfoResponse, estimate: (string, string) -> string)
    requires HasPrefix(remoteAddr, "127.")
    requires forall i :: 0 <= i < |remoteAddr| ==> remoteAddr[i] != ':'
    ensures GetIP(remoteAddr, None, isp, distance, lookup, estimate)
         == Result(remoteAddr + " - " + LocalhostV4, EmptyInfo)
  {
    forall i | 0 <= i <= |remoteAddr| - |MappedMarker| ensures !OccursAt(remoteAddr, MappedMarker, i) {
      assert remoteAddr[i..i + |MappedMarker|][0] == remoteAddr[i] != ':';
    }
    RemoveAllAbsent(remoteAddr, MappedMarker);
    ClassifyLoopbackV4(remoteAddr);
  }
}
