/** The free loopback /24 search: the local addresses listed in the kernel's
    TCP table are collected, and the first `127.i.j.0` not among them is
    picked. The table's content is a parameter (None when it cannot be read). */
module IpRange {
  import opened Wrappers
  import opened Text

  newtype u8 = x: int | 0 <= x < 256

  datatype Ipv4 = Ipv4(o0: u8, o1: u8, o2: u8, o3: u8)

  /* ---------------------------------------------------------------------- */
  /* Decoding one address                                                    */
  /* ---------------------------------------------------------------------- */

  /** `v & 0xFF`, `(v >> 8) & 0xFF` and `(v >> 16) & 0xFF` of a u32: the
      kernel writes the address little-endian, so these are its first three
      octets. */
  function Octet0(v: nat): u8 { (v % 256) as u8 }
  function Octet1(v: nat): u8 { (v / 256 % 256) as u8 }
  function Octet2(v: nat): u8 { (v / 256 / 256 % 256) as u8 }

  /** The u32 whose little-endian bytes are `a`, `b`, `c`, `d`. */
  function Pack(a: u8, b: u8, c: u8, d: u8): (v: nat)
    ensures v < U32_LIMIT
  {
    a as nat + 256 * (b as nat + 256 * (c as nat + 256 * d as nat))
  }

  /** Decoding undoes packing. */
  lemma OctetsOfPack(a: u8, b: u8, c: u8, d: u8)
    ensures Octet0(Pack(a, b, c, d)) == a
    ensures Octet1(Pack(a, b, c, d)) == b
    ensures Octet2(Pack(a, b, c, d)) == c
  {
    var v := Pack(a, b, c, d);
    var q := b as nat + 256 * (c as nat + 256 * d as nat);
    assert v == a as nat + 256 * q;
    assert v % 256 == a as nat && v / 256 == q;
    var q2 := c as nat + 256 * d as nat;
    assert q == b as nat + 256 * q2;
    assert q % 256 == b as nat && q / 256 == q2;
    assert q2 % 256 == c as nat;
  }

  /** `ip_str_to_net`: the address must split on ':' into exactly two parts,
      the first a hexadecimal number that fits in 32 bits; the result keeps
      the first three octets and zeroes the fourth. */
  function IpStrToNet(hexIp: string): (r: Option<Ipv4>)
    ensures r.Some? <==> |Split(hexIp, ':')| == 2 && ParseHexU32(Split(hexIp, ':')[0]).Some?
    ensures r.Some? ==> var v := ParseHexU32(Split(hexIp, ':')[0]).value;
                        r.value == Ipv4(Octet0(v), Octet1(v), Octet2(v), 0)
  {
    var ipPort := Split(hexIp, ':');
    if |ipPort| == 2 then
      match ParseHexU32(ipPort[0])
      case Some(ip) => Some(Ipv4(Octet0(ip), Octet1(ip), Octet2(ip), 0))
      case None => None
    else None
  }

  /** An address with no colon, or with two or more, is rejected. */
  lemma IpStrToNetNeedsOneColon(hexIp: string)
    requires Count(hexIp, ':') != 1
    ensures IpStrToNet(hexIp) == None
  {
    SplitLength(hexIp, ':');
  }

  /** An entry as the kernel writes it, eight hex digits, a colon and the
      port, decodes to the /24 of its address. */
  lemma {:induction false} IpStrToNetOfEntry(a: u8, b: u8, c: u8, d: u8, port: string)
    requires ':' !in port
    ensures IpStrToNet(HexDigits(Pack(a, b, c, d), 8) + ":" + port) == Some(Ipv4(a, b, c, 0))
  {
    var v := Pack(a, b, c, d);
    var hex := HexDigits(v, 8);
    assert ':' !in hex by {
      forall k | 0 <= k < |hex| ensures hex[k] != ':' {
        assert HexDigitValue(hex[k]).Some?;
      }
    }
    SplitJoin([hex, port], ':');
    assert Join([hex, port], [':']) == hex + ":" + port by {
      assert [hex, port][1..] == [port];
    }
    ParseHexU32OfHexDigits(v);
    OctetsOfPack(a, b, c, d);
  }

  lemma LoopbackHexDigits()
    ensures HexDigits(0x0100007F, 8) == "0100007F"
  {
    assert HexDigits(0, 0) == "";
    assert HexDigits(0x0, 1) == "0";
    assert HexDigits(0x01, 2) == "01";
    assert HexDigits(0x010, 3) == "010";
    assert HexDigits(0x0100, 4) == "0100";
    assert HexDigits(0x01000, 5) == "01000";
    assert HexDigits(0x010000, 6) == "010000";
    assert HexDigits(0x0100007, 7) == "0100007";
  }

  /** The loopback entry "0100007F:0016" is 127.0.0.0. */
  lemma LoopbackEntry()
    ensures IpStrToNet("0100007F:0016") == Some(Ipv4(127, 0, 0, 0))
  {
    assert Pack(127, 0, 0, 1) == 0x0100007F;
    LoopbackHexDigits();
    IpStrToNetOfEntry(127, 0, 0, 1, "0016");
    assert "0100007F" + ":" + "0016" == "0100007F:0016";
  }

  /* ---------------------------------------------------------------------- */
  /* The active networks                                                     */
  /* ---------------------------------------------------------------------- */

  /** What one table line contributes: its second whitespace-separated field,
      when that decodes. */
  function LineNet(line: string): (r: set<Ipv4>)
    ensures forall ip :: ip in r ==> ip.o3 == 0
  {
    var parts := SplitWhitespace(line);
    if |parts| > 1 then
      match IpStrToNet(parts[1])
      case Some(ip) => {ip}
      case None => {}
    else {}
  }

  function NetsOf(lines: seq<string>): set<Ipv4>
  {
    if lines == [] then {} else LineNet(lines[0]) + NetsOf(lines[1..])
  }

  /** `get_active_networks`: every line but the first (the column header);
      an unreadable table gives the empty set. */
  function ActiveNetworks(content: Option<string>): set<Ipv4>
  {
    match content
    case None => {}
    case Some(c) =>
      var lines := Lines(c);
      if lines == [] then {} else NetsOf(lines[1..])
  }

  /** An address is active exactly when some line yields it. */
  lemma {:induction false} NetsOfMembers(lines: seq<string>, ip: Ipv4)
    ensures ip in NetsOf(lines) <==> exists k :: 0 <= k < |lines| && ip in LineNet(lines[k])
    decreases |lines|
  {
    if lines != [] {
      NetsOfMembers(lines[1..], ip);
      if ip in NetsOf(lines[1..]) {
        var k :| 0 <= k < |lines[1..]| && ip in LineNet(lines[1..][k]);
        assert ip in LineNet(lines[k + 1]);
      }
      if exists k :: 0 <= k < |lines| && ip in LineNet(lines[k]) {
        var k :| 0 <= k < |lines| && ip in LineNet(lines[k]);
        if k > 0 {
          assert lines[1..][k - 1] == lines[k];
        }
      }
    }
  }

  lemma {:induction false} NetsOfSnoc(lines: seq<string>, line: string)
    ensures NetsOf(lines + [line]) == NetsOf(lines) + LineNet(line)
    decreases |lines|
  {
    if lines == [] {
      assert [line][1..] == [];
    } else {
      assert (lines + [line])[1..] == lines[1..] + [line];
      NetsOfSnoc(lines[1..], line);
    }
  }

  /** Whatever the header line says, it contributes nothing. */
  lemma HeaderIgnored(header: string, body: string)
    requires '\n' !in header
    ensures ActiveNetworks(Some(header + "\n" + body)) == NetsOf(Lines(body))
  {
    var s := header + "\n" + body;
    IndexOfAfter(header, '\n', body);
    assert s[|header| + 1..] == body;
  }

  /** `get_active_networks`, with its loop over the lines after the first. */
  method GetActiveNetworks(content: Option<string>) returns (activeNets: set<Ipv4>)
    ensures activeNets == ActiveNetworks(content)
  {
    activeNets := {};
    if content.None? {
      return;
    }
    var lines := Lines(content.value);
    if lines == [] {
      return;
    }
    for i := 1 to |lines|
      invariant activeNets == NetsOf(lines[1..i])
    {
      ghost var before := activeNets;
      var parts := SplitWhitespace(lines[i]);
      if |parts| > 1 {
        var ip := IpStrToNet(parts[1]);
        if ip.Some? {
          activeNets := activeNets + {ip.value};
        }
      }
      assert activeNets == before + LineNet(lines[i]);
      NetsOfSnoc(lines[1..i], lines[i]);
      SliceSnoc(lines, 1, i);
    }
    assert lines[1..|lines|] == lines[1..];
  }

  /* ---------------------------------------------------------------------- */
  /* The first free /24                                                      */
  /* ---------------------------------------------------------------------- */

  function Candidate(i: u8, j: u8): Ipv4
  {
    Ipv4(127, i, j, 0)
  }

  /** The scan order: `i` first, then `j`. */
  predicate Earlier(i: u8, j: u8, i2: u8, j2: u8)
  {
    i < i2 || (i == i2 && j < j2)
  }

  /** The pair the scan leaves out, which would give 127.0.0.0. */
  predicate Skipped(i: u8, j: u8)
  {
    i == 0 && j == 0
  }

  const NO_FREE_RANGE := "No free IP ranges found"

  /** The scanning loop of `find_available_iprange`, given the active
      networks: the first candidate `127.i.j.0` in scan order that is not
      active. */
  method FirstFreeRange(activeNets: set<Ipv4>) returns (r: Result<Ipv4, string>)
    ensures r.Ok? ==> && r.value.o0 == 127 && r.value.o3 == 0
                      && !Skipped(r.value.o1, r.value.o2)
                      && r.value !in activeNets
                      && (forall i, j :: Earlier(i, j, r.value.o1, r.value.o2) && !Skipped(i, j) ==>
                                          Candidate(i, j) in activeNets)
    ensures r.Err? <==> forall i, j :: !Skipped(i, j) ==> Candidate(i, j) in activeNets
    ensures r.Err? ==> r.error == NO_FREE_RANGE
  {
    for i := 0 to 256
      invariant forall i2, j2 :: i2 as int < i && !Skipped(i2, j2) ==> Candidate(i2, j2) in activeNets
    {
      var a := i as u8;
      for j := 0 to 256
        invariant forall i2, j2 :: i2 as int < i && !Skipped(i2, j2) ==> Candidate(i2, j2) in activeNets
        invariant forall j2 :: j2 as int < j && !Skipped(a, j2) ==> Candidate(a, j2) in activeNets
      {
        if j == 0 && i == 0 {
          continue;
        }
        var net := Candidate(a, j as u8);
        if net !in activeNets {
          return Ok(net);
        }
      }
    }
    r := Err(NO_FREE_RANGE);
  }

  /** `find_available_iprange` as a whole: read the active networks from the
      table's content (`None` when it cannot be read), then scan. */
  method FindAvailableIprange(content: Option<string>) returns (r: Result<Ipv4, string>)
    ensures r.Ok? ==> && r.value.o0 == 127 && r.value.o3 == 0
                      && !Skipped(r.value.o1, r.value.o2)
                      && r.value !in ActiveNetworks(content)
                      && (forall i, j :: Earlier(i, j, r.value.o1, r.value.o2) && !Skipped(i, j) ==>
                                          Candidate(i, j) in ActiveNetworks(content))
    ensures r.Err? <==> forall i, j :: !Skipped(i, j) ==> Candidate(i, j) in ActiveNetworks(content)
    ensures r.Err? ==> r.error == NO_FREE_RANGE
    ensures content.None? ==> r == Ok(Ipv4(127, 0, 1, 0))
  {
    var activeNets := GetActiveNetworks(content);
    r := FirstFreeRange(activeNets);
    if content.None? {
      assert !Skipped(0, 1) && Candidate(0, 1) !in activeNets;
    }
  }
}
