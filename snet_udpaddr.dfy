/** SCION UDP addresses of go/lib/snet/udpaddr.go: the textual form "isd-as,host", its
    syntactic check `parseAddr` (the regular expression `^(\d+-[\d:A-Fa-f]+),(.+)$`
    followed by the bracket and trailing-colon checks), and the address objects with their
    `Set`, `Copy` and `CopyUDPAddr`. */
module SnetUdpAddr {
  import opened Wrappers
  import opened Text

  // ---------------------------------------------------------------------------
  // parseAddr
  // ---------------------------------------------------------------------------

  /** The position of the first `c` in `s`, or `|s|` when there is none. */
  function IndexOf(s: string, c: char): (r: nat)
    ensures r <= |s| && c !in s[..r] && (r < |s| ==> s[r] == c)
    decreases |s|
  {
    if s == [] then 0 else if s[0] == c then 0 else 1 + IndexOf(s[1..], c)
  }

  /** Any position holding `c` with no `c` before it is the first one. */
  lemma IndexOfUnique(s: string, c: char, i: nat)
    requires i < |s| && s[i] == c && c !in s[..i]
    ensures IndexOf(s, c) == i
  {
  }

  /** RE2's `\d`: an ASCII digit. */
  predicate IsAsciiDigit(c: char) { '0' <= c <= '9' }

  /** The class `[\d:A-Fa-f]`. */
  predicate IsHexOrColon(c: char) {
    IsAsciiDigit(c) || c == ':' || 'A' <= c <= 'F' || 'a' <= c <= 'f'
  }

  /** The `ia` group `\d+-[\d:A-Fa-f]+`: digits, one '-', then hex digits or colons. */
  predicate IsIA(x: string) {
    var k := IndexOf(x, '-');
    0 < k < |x| - 1
    && (forall j :: 0 <= j < k ==> IsAsciiDigit(x[j]))
    && (forall j :: k < j < |x| ==> IsHexOrColon(x[j]))
  }

  /** The `host` group `.+`: at least one character, none of them a newline. */
  predicate IsHost(h: string) {
    |h| >= 1 && '\n' !in h
  }

  /** An IA text holds no comma and no bracket. */
  lemma IAHasNoSeparator(x: string)
    requires IsIA(x)
    ensures ',' !in x && '[' !in x && ']' !in x
  {
    var k := IndexOf(x, '-');
    forall j | 0 <= j < |x| ensures x[j] != ',' && x[j] != '[' && x[j] != ']' {
      if j < k {
        assert IsAsciiDigit(x[j]);
      } else if j > k {
        assert IsHexOrColon(x[j]);
      }
    }
  }

  /** An IA text holds exactly one '-'. */
  lemma IAHasOneDash(x: string)
    requires IsIA(x)
    ensures Count(x, '-') == 1
  {
    var k := IndexOf(x, '-');
    var rest := x[k + 1..];
    forall j | 0 <= j < |rest| ensures rest[j] != '-' {
      assert rest[j] == x[k + 1 + j] && IsHexOrColon(x[k + 1 + j]);
    }
    assert x == x[..k] + ([x[k]] + rest);
    CountConcat(x[..k], [x[k]] + rest, '-');
    CountConcat([x[k]], rest, '-');
    CountAbsent(x[..k], '-');
    CountAbsent(rest, '-');
  }

  /** The regular expression matches: `s` is an IA, a comma and a host. Since the IA holds
      no comma, the comma is the first one in `s`. */
  predicate RegexMatches(s: string) {
    var i := IndexOf(s, ',');
    i < |s| && IsIA(s[..i]) && IsHost(s[i + 1..])
  }

  /** The reference reading of the regular expression: some comma splits `s` into an IA and
      a host. It matches exactly when `RegexMatches` does, at the same comma. */
  lemma {:induction false} RegexAtFirstComma(s: string)
    ensures RegexMatches(s) <==> exists i :: 0 <= i < |s| && s[i] == ',' && IsIA(s[..i]) && IsHost(s[i + 1..])
  {
    if exists i :: 0 <= i < |s| && s[i] == ',' && IsIA(s[..i]) && IsHost(s[i + 1..]) {
      var i :| 0 <= i < |s| && s[i] == ',' && IsIA(s[..i]) && IsHost(s[i + 1..]);
      IAHasNoSeparator(s[..i]);
      IndexOfUnique(s, ',', i);
    }
  }

  datatype AddrError =
    | RegexMismatch(addr: string)
    | BracketMismatch(addr: string)
    | TrailingColon(addr: string)

  /** `parseAddr` (udpaddr.go:130-143): the IA and host texts, or the first failed check. */
  function ParseAddr(s: string): Result<(string, string), AddrError> {
    var i := IndexOf(s, ',');
    if !RegexMatches(s) then Err(RegexMismatch(s))
    else if Count(s, '[') != Count(s, ']') then Err(BracketMismatch(s))
    else if EndsWith(s[i + 1..], ":") then Err(TrailingColon(s))
    else Ok((s[..i], s[i + 1..]))
  }

  /** On success the text is the IA, a comma and the host: a non-empty host with matched
      brackets and no trailing ':'. */
  lemma ParseAddrOk(s: string)
    requires ParseAddr(s).Ok?
    ensures s == ParseAddr(s).value.0 + "," + ParseAddr(s).value.1
    ensures IsIA(ParseAddr(s).value.0) && IsHost(ParseAddr(s).value.1)
    ensures Count(ParseAddr(s).value.1, '[') == Count(ParseAddr(s).value.1, ']')
    ensures !EndsWith(ParseAddr(s).value.1, ":")
  {
    var i := IndexOf(s, ',');
    var ia, host := s[..i], s[i + 1..];
    assert s == ia + "," + host;
    IAHasNoSeparator(ia);
    BracketsOfHost(ia, host);
  }

  /** The checks after the regular expression, in their order: mismatched bracket counts,
      then a host ending in ':'. */
  lemma ParseAddrRejects(s: string)
    requires RegexMatches(s)
    ensures Count(s, '[') != Count(s, ']') ==> ParseAddr(s) == Err(BracketMismatch(s))
    ensures Count(s, '[') == Count(s, ']') && EndsWith(s[IndexOf(s, ',') + 1..], ":") ==>
              ParseAddr(s) == Err(TrailingColon(s))
  {
  }

  /** Composing an IA and a valid host and parsing gives both back. */
  lemma ParseAddrOfFormatted(ia: string, host: string)
    requires IsIA(ia) && IsHost(host)
    requires Count(host, '[') == Count(host, ']') && !EndsWith(host, ":")
    ensures ParseAddr(ia + "," + host) == Ok((ia, host))
  {
    var s := ia + "," + host;
    IAHasNoSeparator(ia);
    assert s[|ia|] == ',' && s[..|ia|] == ia && s[|ia| + 1..] == host;
    IndexOfUnique(s, ',', |ia|);
    BracketsOfHost(ia, host);
  }

  /** The brackets of "ia,host" are those of the host when the IA has none. */
  lemma BracketsOfHost(ia: string, host: string)
    requires '[' !in ia && ']' !in ia
    ensures Count(ia + "," + host, '[') == Count(host, '[')
    ensures Count(ia + "," + host, ']') == Count(host, ']')
  {
    assert ia + "," + host == ia + ("," + host);
    CountConcat(ia, "," + host, '[');
    CountConcat(ia, "," + host, ']');
    CountConcat(",", host, '[');
    CountConcat(",", host, ']');
    CountAbsent(ia, '[');
    CountAbsent(ia, ']');
  }

  lemma {:induction false} CountConcat(a: string, b: string, c: char)
    ensures Count(a + b, c) == Count(a, c) + Count(b, c)
    decreases |a|
  {
    if a != [] {
      assert (a + b)[0] == a[0] && (a + b)[1..] == a[1..] + b;
      CountConcat(a[1..], b, c);
    } else {
      assert a + b == b;
    }
  }

  lemma {:induction false} CountAbsent(a: string, c: char)
    requires c !in a
    ensures Count(a, c) == 0
    decreases |a|
  {
    if a != [] {
      CountAbsent(a[1..], c);
    }
  }

  // ---------------------------------------------------------------------------
  // Address objects
  // ---------------------------------------------------------------------------

  /** An ISD-AS pair (`addr.IA`). */
  datatype IA = IA(isd: nat, asn: nat)

  /** The kind of a dataplane path (`slayers/path.Type`); only empty and COLIBRI paths are
      told apart here. */
  datatype PathType = EmptyType | ColibriType | OtherType(code: nat)

  /** A dataplane path: its type and its serialized bytes. */
  class DataplanePath {
    const pathType: PathType
    const raw: seq<byte>

    constructor (pathType: PathType, raw: seq<byte>)
      ensures this.pathType == pathType && this.raw == raw
    {
      this.pathType := pathType;
      this.raw := raw;
    }
  }

  /** Go's `net.UDPAddr`: an IP byte slice, a port and a zone. */
  class NetUDPAddr {
    var ip: array<byte>
    var port: int
    var zone: string

    constructor (ip: seq<byte>, port: int, zone: string)
      ensures fresh(this.ip) && this.ip[..] == ip && this.port == port && this.zone == zone
    {
      this.ip := new byte[|ip|](i requires 0 <= i < |ip| => ip[i]);
      this.port := port;
      this.zone := zone;
    }
  }

  /** What `ParseUDPAddr` makes of a host once the IA and host texts are resolved. */
  datatype Resolved = Resolved(ia: IA, ip: seq<byte>, port: int, zone: string)

  /** `CopyUDPAddr` (udpaddr.go:119-128): nil stays nil; otherwise a new address with a
      new IP slice holding the same bytes, and the same port and zone. */
  method CopyUDPAddr(a: NetUDPAddr?) returns (c: NetUDPAddr?)
    ensures a == null <==> c == null
    ensures a != null ==> fresh(c) && fresh(c.ip) && c.ip[..] == a.ip[..] && c.port == a.port && c.zone == a.zone
  {
    if a == null {
      return null;
    }
    c := new NetUDPAddr(a.ip[..], a.port, a.zone);
  }

  /** A SCION UDP address. */
  class UDPAddr {
    var ia: IA
    var path: DataplanePath?
    var nextHop: NetUDPAddr?
    var host: NetUDPAddr?

    constructor (ia: IA, path: DataplanePath?, nextHop: NetUDPAddr?, host: NetUDPAddr?)
      ensures this.ia == ia && this.path == path && this.nextHop == nextHop && this.host == host
    {
      this.ia := ia;
      this.path := path;
      this.nextHop := nextHop;
      this.host := host;
    }

    /** `String` (udpaddr.go:91-93): the IA, a comma, the host. The formatting of the IA
        and of the host (`%v` of `addr.IA`, `net.UDPAddr.String`) is given. */
    function String(showIA: IA -> string, hostText: string): (r: string)
      reads this
    {
      showIA(ia) + "," + hostText
    }

    /** The text `String` gives parses back into the same IA and host texts, whenever the
        IA is formatted as `parseAddr` expects and the host is a valid host part. */
    lemma StringParsesBack(showIA: IA -> string, hostText: string)
      requires IsIA(showIA(ia)) && IsHost(hostText)
      requires Count(hostText, '[') == Count(hostText, ']') && !EndsWith(hostText, ":")
      ensures ParseAddr(String(showIA, hostText)) == Ok((showIA(ia), hostText))
    {
      ParseAddrOfFormatted(showIA(ia), hostText);
    }

    /** `Set` (udpaddr.go:105-112) over `ParseUDPAddr`: `resolve` stands for the IA parsing
        and host resolution that follow `parseAddr`. On an error the address is unchanged;
        otherwise it is overwritten with a new address that has only an IA and a host. */
    method Set(s: string, resolve: (string, string) -> Result<Resolved, AddrError>) returns (r: Outcome<AddrError>)
      modifies this
      ensures ParseAddr(s).Err? ==> r == Fail(ParseAddr(s).error) && unchanged(this)
      ensures ParseAddr(s).Ok? && resolve(ParseAddr(s).value.0, ParseAddr(s).value.1).Err? ==>
                r == Fail(resolve(ParseAddr(s).value.0, ParseAddr(s).value.1).error) && unchanged(this)
      ensures ParseAddr(s).Ok? && resolve(ParseAddr(s).value.0, ParseAddr(s).value.1).Ok? ==>
                var v := resolve(ParseAddr(s).value.0, ParseAddr(s).value.1).value;
                r == Pass && ia == v.ia && path == null && nextHop == null
                && host != null && fresh(host) && host.ip[..] == v.ip && host.port == v.port && host.zone == v.zone
    {
      var parsed := ParseAddr(s);
      if parsed.Err? {
        return Fail(parsed.error);
      }
      var resolved := resolve(parsed.value.0, parsed.value.1);
      if resolved.Err? {
        return Fail(resolved.error);
      }
      var v := resolved.value;
      var h := new NetUDPAddr(v.ip, v.port, v.zone);
      ia, path, nextHop, host := v.ia, null, null, h;
      return Pass;
    }
  }

  /** `Copy` (udpaddr.go:152-162): nil stays nil; otherwise a new address sharing the IA
      and the path, with the next hop and the host deep-copied. */
  method Copy(a: UDPAddr?) returns (c: UDPAddr?)
    ensures a == null <==> c == null
    ensures a != null ==> fresh(c) && c.ia == a.ia && c.path == a.path
    ensures a != null ==> (c.nextHop == null <==> a.nextHop == null) && (c.host == null <==> a.host == null)
    ensures a != null && a.nextHop != null ==>
              fresh(c.nextHop) && fresh(c.nextHop.ip) && c.nextHop.ip[..] == a.nextHop.ip[..]
              && c.nextHop.port == a.nextHop.port && c.nextHop.zone == a.nextHop.zone
    ensures a != null && a.host != null ==>
              fresh(c.host) && fresh(c.host.ip) && c.host.ip[..] == a.host.ip[..]
              && c.host.port == a.host.port && c.host.zone == a.host.zone
  {
    if a == null {
      return null;
    }
    var nextHop := CopyUDPAddr(a.nextHop);
    var host := CopyUDPAddr(a.host);
    c := new UDPAddr(a.ia, a.path, nextHop, host);
  }
}
