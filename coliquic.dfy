/** The session keys of go/lib/colibri/coliquic/persistent_quic.go: a COLIBRI path made
    invariant against its timestamp and packet length, the address-and-path key built from
    it, and the server name used for a SCION UDP address. */
module Coliquic {
  import opened Wrappers
  import opened Text
  import opened SnetUdpAddr

  /** `colibri.LenInfoField`: the length of the info field after the 8-byte timestamp. */
  const LenInfoField := 24

  /** The bytes `invariantColibri` zeroes in a path of at least `8 + LenInfoField` bytes:
      the packet timestamp [0,8) and the `OrigPayLen` field [30,32) of the info field. */
  predicate Masked(i: int) {
    0 <= i < 8 || 8 + 22 <= i < 8 + 22 + 2
  }

  /** The canonical form of a serialized COLIBRI path. */
  function InvariantOf(b: seq<byte>): (r: seq<byte>)
    ensures |r| == |b|
    ensures |b| >= 8 + LenInfoField ==> forall i :: 0 <= i < |b| ==> r[i] == if Masked(i) then 0 else b[i]
    ensures |b| < 8 + LenInfoField ==> r == b
  {
    if |b| >= 8 + LenInfoField then seq(|b|, i requires 0 <= i < |b| => if Masked(i) then 0 else b[i]) else b
  }

  /** `invariantColibri` (persistent_quic.go:234-241): a new buffer holding the canonical
      form; the argument is not changed. */
  method InvariantColibri(buff: array<byte>) returns (raw: array<byte>)
    ensures fresh(raw) && raw[..] == InvariantOf(buff[..])
  {
    raw := new byte[buff.Length](i reads buff requires 0 <= i < buff.Length => buff[i]);
    if buff.Length >= 8 + LenInfoField {
      var i := 0;
      while i < 8
        invariant 0 <= i <= 8
        invariant forall j :: 0 <= j < raw.Length ==> raw[j] == if j < i then 0 else buff[j]
      {
        raw[i] := 0;
        i := i + 1;
      }
      raw[8 + 22] := 0;
      raw[8 + 22 + 1] := 0;
    }
    assert raw[..] == InvariantOf(buff[..]);
  }

  /** Making a path canonical twice changes nothing more. */
  lemma InvariantIdempotent(b: seq<byte>)
    ensures InvariantOf(InvariantOf(b)) == InvariantOf(b)
  {
    if |b| >= 8 + LenInfoField {
      var r := InvariantOf(b);
      assert forall i :: 0 <= i < |b| ==> InvariantOf(r)[i] == r[i];
    }
  }

  /** Two serializations of the same length that differ at most in the timestamp and the
      packet length have the same canonical form. */
  lemma InvariantIgnoresMasked(a: seq<byte>, b: seq<byte>)
    requires |a| == |b| >= 8 + LenInfoField
    requires forall i :: 0 <= i < |a| && !Masked(i) ==> a[i] == b[i]
    ensures InvariantOf(a) == InvariantOf(b)
  {
    assert forall i :: 0 <= i < |a| ==> InvariantOf(a)[i] == InvariantOf(b)[i];
  }

  /** Paths with the same canonical form agree outside the masked bytes. */
  lemma InvariantKeepsUnmasked(a: seq<byte>, b: seq<byte>, i: nat)
    requires InvariantOf(a) == InvariantOf(b) && i < |a| && !Masked(i)
    ensures a[i] == b[i]
  {
    assert InvariantOf(a)[i] == a[i];
  }

  /** `addrPathToString` (persistent_quic.go:209-221): the name of the path type followed by
      the address text for an empty path, the hex of the canonical form for a COLIBRI path,
      and the hex of the raw path otherwise. `showType` is `Type.String` and `addrText` the
      text of `addr.String()`. */
  function AddrPathToString(pt: PathType, showType: PathType -> string, addrText: string, raw: seq<byte>): (r: string)
    ensures StartsWith(r, showType(pt))
    ensures pt.EmptyType? ==> r[|showType(pt)|..] == addrText
    ensures pt.ColibriType? ==> r[|showType(pt)|..] == Hex(InvariantOf(raw))
    ensures pt.OtherType? ==> r[|showType(pt)|..] == Hex(raw) && |r| == |showType(pt)| + 2 * |raw|
  {
    var suffix := match pt
      case EmptyType => addrText
      case ColibriType => Hex(InvariantOf(raw))
      case OtherType(_) => Hex(raw);
    showType(pt) + suffix
  }

  /** A COLIBRI key does not depend on the timestamp or the packet length of the path. */
  lemma ColibriKeyIgnoresTimestamp(showType: PathType -> string, addrText: string, a: seq<byte>, b: seq<byte>)
    requires |a| == |b| >= 8 + LenInfoField
    requires forall i :: 0 <= i < |a| && !Masked(i) ==> a[i] == b[i]
    ensures AddrPathToString(ColibriType, showType, addrText, a) == AddrPathToString(ColibriType, showType, addrText, b)
  {
    InvariantIgnoresMasked(a, b);
  }

  /** Keys of other paths tell any two different raw paths apart. */
  lemma OtherKeyDistinguishes(code: nat, showType: PathType -> string, addrText: string, a: seq<byte>, b: seq<byte>)
    requires AddrPathToString(OtherType(code), showType, addrText, a) == AddrPathToString(OtherType(code), showType, addrText, b)
    ensures a == b
  {
    var n := |showType(OtherType(code))|;
    assert Hex(a) == AddrPathToString(OtherType(code), showType, addrText, a)[n..];
    HexInjective(a, b);
  }

  /** The addresses `addrToSNI` is given: a SCION UDP address, or any other address with
      its own text. */
  datatype NetAddr = ScionUDP(udp: UDPAddr) | OtherAddr(text: string)

  /** `addrToSNI` (persistent_quic.go:223-230): "[ip]:port" of a SCION address's host,
      otherwise the address text. `showIP` is `net.IP.String`. The host must be set, as the
      source dereferences it. */
  function AddrToSNI(addr: NetAddr, showIP: seq<byte> -> string): (r: string)
    requires addr.ScionUDP? ==> addr.udp.host != null
    reads if addr.ScionUDP? then {addr.udp} else {}
    reads if addr.ScionUDP? && addr.udp.host != null then {addr.udp.host, addr.udp.host.ip} else {}
    ensures addr.OtherAddr? ==> r == addr.text
    ensures addr.ScionUDP? ==> |r| >= 1 && r[0] == '[' && EndsWith(r, "]:" + IntToString(addr.udp.host.port))
  {
    match addr
    case ScionUDP(a) =>
      var t, port := showIP(a.host.ip[..]), IntToString(a.host.port);
      assert ("[" + t + "]:" + port)[|"[" + t|..] == "]:" + port;
      "[" + t + "]:" + port
    case OtherAddr(text) => text
  }

  /** The decimal text of a port holds no bracket or newline and ends in a digit. */
  lemma PortText(p: int)
    ensures var port := IntToString(p);
      '[' !in port && ']' !in port && '\n' !in port && |port| >= 1 && IsDigit(port[|port| - 1])
  {
    var digits := if p < 0 then NatToString(-p) else NatToString(p);
    var port := IntToString(p);
    assert port == (if p < 0 then "-" else "") + digits;
    forall j | 0 <= j < |port| ensures port[j] != '[' && port[j] != ']' && port[j] != '\n' {
      if p < 0 && j > 0 {
        assert port[j] == digits[j - 1];
      } else if p >= 0 {
        assert port[j] == digits[j];
      }
    }
  }

  /** "[t]:port" has as many '[' as ']' when neither `t` nor `port` holds a bracket. */
  lemma BracketedCounts(t: string, port: string)
    requires '[' !in t && ']' !in t && '[' !in port && ']' !in port
    ensures Count("[" + t + "]:" + port, '[') == 1 && Count("[" + t + "]:" + port, ']') == 1
  {
    CountOutside(t, port, '[');
    CountOutside(t, port, ']');
    assert Count("]:", '[') == 0 && Count("]:", ']') == 1;
  }

  /** A character absent from `t` and `port` occurs in "[t]:port" as often as in the
      fixed parts "[" and "]:". */
  lemma CountOutside(t: string, port: string, c: char)
    requires c !in t && c !in port
    ensures Count("[" + t + "]:" + port, c) == Count("[", c) + Count("]:", c)
  {
    var tail := "]:" + port;
    var rest := t + tail;
    assert "[" + t + "]:" + port == "[" + rest;
    CountConcat("[", rest, c);
    CountConcat(t, tail, c);
    CountAbsent(t, c);
    CountConcat("]:", port, c);
    CountAbsent(port, c);
  }

  /** "[t]:port" is a valid host of the "ia,host" form when `t` has no bracket or newline. */
  lemma BracketedHost(t: string, port: string)
    requires '[' !in t && ']' !in t && '\n' !in t
    requires '[' !in port && ']' !in port && '\n' !in port && |port| >= 1 && IsDigit(port[|port| - 1])
    ensures var h := "[" + t + "]:" + port;
      IsHost(h) && Count(h, '[') == Count(h, ']') && !EndsWith(h, ":")
  {
    var h := "[" + t + "]:" + port;
    BracketedCounts(t, port);
    assert h[|h| - 1] == port[|port| - 1];
    forall j | 0 <= j < |h| ensures h[j] != '\n' {
      if 1 <= j < 1 + |t| {
        assert h[j] == t[j - 1];
      } else if j >= |t| + 3 {
        assert h[j] == port[j - |t| - 3];
      }
    }
  }

  /** The server name of a SCION address is a valid host of the "ia,host" text form when the
      IP text has no brackets or newlines: put after an IA it parses back. */
  lemma SNIParsesAsHost(addr: NetAddr, showIP: seq<byte> -> string, ia: string)
    requires addr.ScionUDP? && addr.udp.host != null
    requires var t := showIP(addr.udp.host.ip[..]); '[' !in t && ']' !in t && '\n' !in t
    requires IsIA(ia)
    ensures ParseAddr(ia + "," + AddrToSNI(addr, showIP)) == Ok((ia, AddrToSNI(addr, showIP)))
  {
    var t := showIP(addr.udp.host.ip[..]);
    PortText(addr.udp.host.port);
    BracketedHost(t, IntToString(addr.udp.host.port));
    ParseAddrOfFormatted(ia, AddrToSNI(addr, showIP));
  }
}
