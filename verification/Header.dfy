/**
 The twelve-octet DNS header (RFC 1035 section 4.1.1, RFC 4035 section 3). The flag word is read and
 rebuilt per octet: octet 2 holds QR, OPCODE, AA, TC, RD and octet 3 holds RA, Z, AD, CD, RCODE,
 most significant bit first.
 */
module Header {
  import opened Bytes

  const HEADER_SIZE := 12

  const RCODE_NOERROR: byte := 0
  const RCODE_FORMERR: byte := 1
  const RCODE_SERVFAIL: byte := 2
  const RCODE_NXDOMAIN: byte := 3
  const RCODE_NOTIMP: byte := 4

  predicate HasHeader(b: seq<byte>) { |b| >= HEADER_SIZE }

  function Id(b: seq<byte>): u16 requires HasHeader(b) { U16At(b, 0) }
  predicate Qr(b: seq<byte>) requires HasHeader(b) { b[2] >= 0x80 }
  function Opcode(b: seq<byte>): byte requires HasHeader(b) { b[2] / 8 % 16 }
  predicate Aa(b: seq<byte>) requires HasHeader(b) { b[2] / 4 % 2 == 1 }
  predicate Tc(b: seq<byte>) requires HasHeader(b) { b[2] / 2 % 2 == 1 }
  predicate Rd(b: seq<byte>) requires HasHeader(b) { b[2] % 2 == 1 }
  predicate Ra(b: seq<byte>) requires HasHeader(b) { b[3] >= 0x80 }
  predicate Zero(b: seq<byte>) requires HasHeader(b) { b[3] / 64 % 2 == 1 }
  predicate Ad(b: seq<byte>) requires HasHeader(b) { b[3] / 32 % 2 == 1 }
  predicate Cd(b: seq<byte>) requires HasHeader(b) { b[3] / 16 % 2 == 1 }
  function Rcode(b: seq<byte>): byte requires HasHeader(b) { b[3] % 16 }

  function Bit(on: bool, weight: byte): byte { if on then weight else 0 }

  /** Octet 2 of a locally built response: QR set, OPCODE and RD echoed. */
  function ResponseFlags2(request: seq<byte>, aa: bool, tc: bool): byte
    requires HasHeader(request)
  {
    0x80 + Opcode(request) * 8 + Bit(aa, 4) + Bit(tc, 2) + Bit(Rd(request), 1)
  }

  /** Octet 3 of a locally built response: RA set, CD echoed, AD clear. */
  function ResponseFlags3(request: seq<byte>, rcode: byte): byte
    requires HasHeader(request)
  {
    0x80 + Bit(Cd(request), 0x10) + rcode % 16
  }

  /** `rewrite_response_flags_for_client`: clear AD, RD and CD, then set the client's RD and CD. */
  function RewriteFlags(b: seq<byte>, rd: bool, cd: bool): (r: seq<byte>)
    ensures |r| == |b|
  {
    if !HasHeader(b) then b
    else b[2 := b[2] - b[2] % 2 + Bit(rd, 1)][3 := b[3] / 64 * 64 + b[3] % 16 + Bit(cd, 0x10)]
  }

  function PatchId(b: seq<byte>, id: u16): (r: seq<byte>)
    ensures |r| == |b|
  {
    if |b| >= 2 then PutU16(b, 0, id) else b
  }

  /** What the relay does to an upstream answer, and the cache to a stored one, for a given client. */
  function ForClient(b: seq<byte>, id: u16, rd: bool, cd: bool): (r: seq<byte>)
    ensures |r| == |b|
  {
    PatchId(RewriteFlags(b, rd, cd), id)
  }

  /** The client sees its own id, RD and CD, never AD, and every other header bit and octet as received. */
  lemma ForClientMeaning(b: seq<byte>, id: u16, rd: bool, cd: bool)
    requires HasHeader(b)
    ensures var r := ForClient(b, id, rd, cd);
      && Id(r) == id && Rd(r) == rd && Cd(r) == cd && !Ad(r)
      && Qr(r) == Qr(b) && Opcode(r) == Opcode(b) && Aa(r) == Aa(b) && Tc(r) == Tc(b)
      && Ra(r) == Ra(b) && Zero(r) == Zero(b) && Rcode(r) == Rcode(b)
      && r[4..] == b[4..]
  {
    var r := ForClient(b, id, rd, cd);
    var x, y := b[2] - b[2] % 2 + Bit(rd, 1), b[3] / 64 * 64 + b[3] % 16 + Bit(cd, 0x10);
    assert r[2] == x && r[3] == y && r[4..] == b[4..] && Id(r) == id;
    hide ForClient;
    Flag2Bits(b[2], rd);
    Flag3Bits(b[3], cd);
  }

  lemma Flag2Bits(x: byte, rd: bool)
    ensures var r := x - x % 2 + Bit(rd, 1);
      && (r % 2 == 1 <==> rd) && r / 2 % 2 == x / 2 % 2 && r / 4 % 2 == x / 4 % 2
      && r / 8 % 16 == x / 8 % 16 && (r >= 0x80 <==> x >= 0x80)
  {
    assert (x - x % 2 + Bit(rd, 1)) / 2 == x / 2;
  }

  lemma Flag3Bits(y: byte, cd: bool)
    ensures var r := y / 64 * 64 + y % 16 + Bit(cd, 0x10);
      && (r / 16 % 2 == 1 <==> cd) && r / 32 % 2 == 0 && r / 64 % 2 == y / 64 % 2
      && r % 16 == y % 16 && (r >= 0x80 <==> y >= 0x80)
  {
    assert (y / 64 * 64 + y % 16 + Bit(cd, 0x10)) / 64 == y / 64;
  }

  /** Patching for one client and then for another is patching for the last one. */
  lemma ForClientOverwrites(b: seq<byte>, id: u16, rd: bool, cd: bool, id': u16, rd': bool, cd': bool)
    ensures ForClient(ForClient(b, id, rd, cd), id', rd', cd') == ForClient(b, id', rd', cd')
  {
    if HasHeader(b) {
      FlagsOverwrite(b[2], b[3], rd, cd, rd', cd');
    }
  }

  lemma FlagsOverwrite(x: byte, y: byte, rd: bool, cd: bool, rd': bool, cd': bool)
    ensures var x1 := x - x % 2 + Bit(rd, 1); x1 - x1 % 2 + Bit(rd', 1) == x - x % 2 + Bit(rd', 1)
    ensures var y1 := y / 64 * 64 + y % 16 + Bit(cd, 0x10);
      y1 / 64 * 64 + y1 % 16 + Bit(cd', 0x10) == y / 64 * 64 + y % 16 + Bit(cd', 0x10)
  {
  }

  /** Relaying commutes with the order of the two edits. */
  lemma PatchRewriteCommute(b: seq<byte>, id: u16, rd: bool, cd: bool)
    ensures RewriteFlags(PatchId(b, id), rd, cd) == ForClient(b, id, rd, cd)
  {
  }

  /** The two flag octets of every locally built response. */
  lemma ResponseFlagsMeaning(request: seq<byte>, reply: seq<byte>, aa: bool, tc: bool, rcode: byte)
    requires HasHeader(request) && HasHeader(reply)
    requires reply[2] == ResponseFlags2(request, aa, tc) && reply[3] == ResponseFlags3(request, rcode)
    ensures Qr(reply) && Opcode(reply) == Opcode(request) && Rd(reply) == Rd(request)
    ensures Cd(reply) == Cd(request) && !Ad(reply) && Ra(reply)
    ensures Aa(reply) == aa && Tc(reply) == tc && Rcode(reply) == rcode % 16
  {
  }
}
